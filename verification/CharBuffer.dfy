/** The formatter's growable buffers and the printing of integers into them. */
module CharBuffer {
  import opened Sequences
  import opened Wrappers

  class Buffer {
    ghost var Contents: seq<char>
    ghost var Repr: set<object>
    var data: array<char>
    var len: nat

    ghost predicate Valid()
      reads this, Repr
      ensures Valid() ==> this in Repr
    {
      this in Repr && data in Repr && Repr == {this, data} &&
      len <= data.Length && Contents == data[..len]
    }

    constructor ()
      ensures Valid() && fresh(Repr) && Contents == []
    {
      data := new char[0];
      len := 0;
      new;
      Contents, Repr := [], {this, data};
    }

    /** Appends a character; a full buffer moves to one that is 1024 longer. */
    method Add(ch: char)
      requires Valid()
      modifies Repr
      ensures Valid() && fresh(Repr - old(Repr))
      ensures Contents == old(Contents) + [ch]
      ensures len == old(len) + 1
    {
      if len == data.Length {
        var bigger := new char[data.Length + 1024];
        forall i | 0 <= i < len {
          bigger[i] := data[i];
        }
        data := bigger;
        Repr := {this, data};
      }
      data[len] := ch;
      len := len + 1;
      Contents := Contents + [ch];
    }

    method AddAll(s: string)
      requires Valid()
      modifies Repr
      ensures Valid() && fresh(Repr - old(Repr))
      ensures Contents == old(Contents) + s
    {
      for i := 0 to |s|
        invariant Valid() && fresh(Repr - old(Repr))
        invariant Contents == old(Contents) + s[..i]
      {
        Add(s[i]);
      }
      assert s[..|s|] == s;
    }

    method Clear()
      requires Valid()
      modifies Repr
      ensures Valid() && Repr == old(Repr)
      ensures Contents == []
    {
      len := 0;
      Contents := [];
    }

    /** Reverses the characters from begin on, swapping from both ends. */
    method ReverseFrom(begin: nat, ghost head: string, ghost tail: string)
      requires Valid() && Contents == head + tail && |head| == begin
      modifies Repr
      ensures Valid() && Repr == old(Repr)
      ensures Contents == head + Reversed(tail)
    {
      hide Reversed;
      ghost var was := Contents;
      var a, i, j := data, begin, len - 1;
      while i < j
        invariant begin <= i <= j + 1 <= len && i - begin == len - 1 - j
        invariant forall k :: 0 <= k < begin || i <= k <= j ==> a[k] == was[k]
        invariant forall k :: begin <= k < i || j < k < len ==> a[k] == was[begin + len - 1 - k]
        modifies a
      {
        a[i], a[j] := a[j], a[i];
        i, j := i + 1, j - 1;
      }
      ReversedTail(was, data[..len], head, tail);
      Contents := data[..len];
    }
  }

  lemma ReversedTail(was: seq<char>, now: seq<char>, head: seq<char>, tail: seq<char>)
    requires was == head + tail && |now| == |was|
    requires forall k :: 0 <= k < |head| ==> now[k] == was[k]
    requires forall k :: |head| <= k < |was| ==> now[k] == was[|head| + |was| - 1 - k]
    ensures now == head + Reversed(tail)
  {
  }

  // ---- Integers

  const MIN_INT := -0x8000_0000

  function Digit(n: int): char
    requires 0 <= n < 10
  {
    ('0' as int + n) as char
  }

  /** The digits of n without leading zeros. */
  function Decimal(n: nat): (s: string)
    ensures s != ""
  {
    if n < 10 then [Digit(n)] else Decimal(n / 10) + [Digit(n % 10)]
  }

  function IntText(n: int): string {
    if n < 0 then "-" + Decimal(-n) else Decimal(n)
  }

  /** Prints low digit first and reverses; negating the smallest int would overflow. */
  method AddInt(out: Buffer, num: int)
    requires out.Valid() && MIN_INT < num < 0x8000_0000
    modifies out.Repr
    ensures out.Valid() && fresh(out.Repr - old(out.Repr))
    ensures out.Contents == old(out.Contents) + IntText(num)
  {
    hide Decimal;
    var n := num;
    if n < 0 {
      n := -n;
      out.Add('-');
    }
    AddNatural(out, n);
  }

  method AddNatural(out: Buffer, value: nat)
    requires out.Valid()
    modifies out.Repr
    ensures out.Valid() && fresh(out.Repr - old(out.Repr))
    ensures out.Contents == old(out.Contents) + Decimal(value)
  {
    hide Decimal, Reversed;
    var begin := out.len;
    ghost var before := out.Contents;
    AddDigits(out, value);
    out.ReverseFrom(begin, before, Reversed(Decimal(value)));
    ReversedTwice(Decimal(value));
  }

  /** Digits of n, low digit first. */
  method AddDigits(out: Buffer, value: nat)
    requires out.Valid()
    modifies out.Repr
    ensures out.Valid() && fresh(out.Repr - old(out.Repr))
    ensures out.Contents == old(out.Contents) + Reversed(Decimal(value))
  {
    hide Decimal, Digit, Reversed;
    var n := value;
    ghost var done := [Digit(n % 10)];
    DecimalStep(n);
    ReversedAppend([], Digit(n % 10));
    out.Add(Digit(n % 10));
    n := n / 10;
    while n != 0
      invariant out.Valid() && fresh(out.Repr - old(out.Repr))
      invariant out.Contents == old(out.Contents) + done
      invariant Decimal(value) == HighDigits(n) + Reversed(done)
    {
      DecimalStep(n);
      ReversedAppend(done, Digit(n % 10));
      done := done + [Digit(n % 10)];
      out.Add(Digit(n % 10));
      n := n / 10;
    }
    ReversedTwice(done);
  }

  /** The digits still to be printed. */
  function HighDigits(n: nat): string {
    if n == 0 then "" else Decimal(n)
  }

  lemma DecimalStep(n: nat)
    ensures Decimal(n) == HighDigits(n / 10) + [Digit(n % 10)]
  {
  }

  lemma ReversedAppend(s: seq<char>, c: char)
    ensures Reversed(s + [c]) == [c] + Reversed(s)
    ensures s == [] ==> Reversed([c]) == [c]
  {
  }

  // ---- Reading integers back

  predicate IsDigit(c: char) {
    '0' <= c <= '9'
  }

  /** The number written by the leading digits, continuing from n, and what follows them. */
  function ReadDigits(s: string, n: nat): (r: (nat, string))
    ensures |r.1| <= |s| && (s != "" && IsDigit(s[0]) ==> |r.1| < |s|)
    decreases |s|
  {
    if s == "" || !IsDigit(s[0]) then (n, s) else ReadDigits(s[1..], 10 * n + (s[0] as int - '0' as int))
  }

  function ReadInt(s: string): (r: Option<(int, string)>)
    ensures r.Some? ==> |r.value.1| < |s|
  {
    var negative := s != "" && s[0] == '-';
    var t := if negative then s[1..] else s;
    if t == "" || !IsDigit(t[0]) then None
    else
      var (n, rest) := ReadDigits(t, 0);
      var value: int := n;
      Some((if negative then -value else value, rest))
  }

  predicate StartsWithoutDigit(rest: string) {
    rest == "" || !IsDigit(rest[0])
  }

  lemma {:induction false} ReadDecimal(n: nat, rest: string)
    ensures ReadDigits(Decimal(n) + rest, 0) == ReadDigits(rest, n)
    ensures IsDigit(Decimal(n)[0]) && (n > 0 ==> Decimal(n)[0] != '0')
    decreases n
  {
    if n < 10 {
      assert (Decimal(n) + rest)[1..] == rest;
    } else {
      var d := [Digit(n % 10)] + rest;
      ReadDecimal(n / 10, d);
      assert Decimal(n) + rest == Decimal(n / 10) + d && d[1..] == rest;
    }
  }

  lemma ReadIntText(n: int, rest: string)
    requires StartsWithoutDigit(rest)
    ensures ReadInt(IntText(n) + rest) == Some((n, rest))
  {
    hide Decimal;
    assert ReadDigits(rest, if n < 0 then -n else n) == (if n < 0 then -n else n, rest);
    if n < 0 {
      ReadDecimal(-n, rest);
      assert (IntText(n) + rest)[1..] == Decimal(-n) + rest;
    } else {
      ReadDecimal(n, rest);
    }
  }

  // ---- Lists of ids

  /** The ids before the first zero. */
  function UpToZero(ids: seq<int>): seq<int> {
    if ids == [] || ids[0] == 0 then [] else [ids[0]] + UpToZero(ids[1..])
  }

  function CommaList(ids: seq<int>): string
    requires ids != []
  {
    if |ids| == 1 then IntText(ids[0]) else CommaList(ids[..|ids| - 1]) + "," + IntText(ids[|ids| - 1])
  }

  function ListText(ids: seq<int>): string {
    "(" + (if ids == [] then "-1" else CommaList(ids)) + ")"
  }

  /** The D formatter: a zero-terminated array, or no array at all. */
  method FormatIds(out: Buffer, ids: Option<seq<int>>)
    requires out.Valid()
    requires ids.Some? ==> 0 in ids.value && forall i :: i in UpToZero(ids.value) ==> MIN_INT < i < 0x8000_0000
    modifies out.Repr
    ensures out.Valid() && fresh(out.Repr - old(out.Repr))
    ensures out.Contents == old(out.Contents) + ListText(if ids.Some? then UpToZero(ids.value) else [])
  {
    hide CommaList, UpToZero;
    out.Add('(');
    if ids.Some? {
      UpToZeroIs(ids.value);
    }
    if ids.Some? && ids.value[0] != 0 {
      AddIds(out, ids.value);
    } else {
      out.AddAll("-1");
    }
    out.Add(')');
  }

  method AddIds(out: Buffer, ids: seq<int>)
    requires out.Valid() && 0 in ids && ids[0] != 0
    requires forall i :: i in UpToZero(ids) ==> MIN_INT < i < 0x8000_0000
    modifies out.Repr
    ensures out.Valid() && fresh(out.Repr - old(out.Repr))
    ensures UpToZero(ids) != [] && out.Contents == old(out.Contents) + CommaList(UpToZero(ids))
  {
    hide CommaList, IntText, UpToZero;
    ghost var all := UpToZero(ids);
    UpToZeroIs(ids);
    assert all[0] in all;
    AddInt(out, ids[0]);
    var i := 1;
    CommaListOf(all, 0);
    while ids[i] != 0
      invariant 1 <= i <= |all| && out.Valid() && fresh(out.Repr - old(out.Repr))
      invariant out.Contents == old(out.Contents) + CommaList(all[..i])
      decreases |all| - i
    {
      assert all[i] == ids[i] && all[i] in all;
      CommaListOf(all, i);
      out.Add(',');
      AddInt(out, ids[i]);
      i := i + 1;
    }
    assert all[..i] == all;
  }

  lemma CommaListOf(ids: seq<int>, i: nat)
    requires i < |ids|
    ensures CommaList(ids[..i + 1]) == if i == 0 then IntText(ids[0]) else CommaList(ids[..i]) + "," + IntText(ids[i])
  {
    hide IntText;
    assert ids[..i + 1][..i] == ids[..i];
  }

  lemma {:induction false} UpToZeroIs(s: seq<int>)
    requires 0 in s
    ensures var all := UpToZero(s);
            |all| < |s| && s[|all|] == 0 && forall i :: 0 <= i < |all| ==> all[i] == s[i] && s[i] != 0
  {
    if s[0] != 0 {
      assert s == [s[0]] + s[1..];
      UpToZeroIs(s[1..]);
    }
  }

  /** Reads ids separated by commas up to a closing parenthesis that ends the text. */
  function ReadIds(s: string): Option<seq<int>>
    decreases |s|
  {
    match ReadInt(s)
    case None => None
    case Some((n, rest)) =>
      if rest == ")" then Some([n])
      else if rest != "" && rest[0] == ',' then
        match ReadIds(rest[1..])
        case None => None
        case Some(more) => Some([n] + more)
      else None
  }

  function ReadList(s: string): Option<seq<int>> {
    if s != "" && s[0] == '(' then ReadIds(s[1..]) else None
  }

  lemma CommaListLast(ids: seq<int>, last: int)
    ensures CommaList(ids + [last]) == if ids == [] then IntText(last) else CommaList(ids) + "," + IntText(last)
  {
    hide IntText;
    assert (ids + [last])[..|ids|] == ids;
  }

  lemma Regroup(a: string, b: string, c: string, d: string, e: string)
    ensures a + b + c + d + e == a + b + (c + d + e)
  {
  }

  lemma {:induction false} CommaListHead(first: int, ids: seq<int>)
    requires ids != []
    ensures CommaList([first] + ids) == IntText(first) + "," + CommaList(ids)
    decreases |ids|
  {
    hide IntText, CommaList;
    var init, last := ids[..|ids| - 1], ids[|ids| - 1];
    assert ids == init + [last];
    assert [first] + ids == ([first] + init) + [last];
    CommaListLast([first] + init, last);
    CommaListLast(init, last);
    if init == [] {
      CommaListLast([], first);
      assert [first] + init == [] + [first];
    } else {
      CommaListHead(first, init);
      Regroup(IntText(first), ",", CommaList(init), ",", IntText(last));
    }
  }

  lemma {:induction false} ReadCommaList(ids: seq<int>)
    requires ids != []
    ensures ReadIds(CommaList(ids) + ")") == Some(ids)
    decreases |ids|
  {
    hide IntText, ReadInt;
    if |ids| == 1 {
      ReadIntText(ids[0], ")");
      assert ids == [ids[0]];
    } else {
      assert ids == [ids[0]] + ids[1..];
      CommaListHead(ids[0], ids[1..]);
      ReadCommaList(ids[1..]);
      hide CommaList;
      var rest := "," + (CommaList(ids[1..]) + ")");
      ReadIntText(ids[0], rest);
      assert CommaList(ids) + ")" == IntText(ids[0]) + rest && rest[1..] == CommaList(ids[1..]) + ")";
      assert ids == [ids[0]] + ids[1..];
    }
  }

  /** Reading the printed list gives the ids before the zero, or -1 alone if there are none. */
  lemma ListRoundTrip(ids: seq<int>)
    ensures ReadList(ListText(ids)) == Some(if ids == [] then [-1] else ids)
  {
    if ids == [] {
      ReadCommaList([-1]);
      assert Decimal(1) == "1";
      assert ListText(ids)[1..] == CommaList([-1]) + ")";
    } else {
      ReadCommaList(ids);
      assert ListText(ids)[1..] == CommaList(ids) + ")";
    }
  }
}
