/** Splitting a string at a separator character and joining the pieces again. */
module Text {
  function Split(s: string, sep: char): (parts: seq<string>)
    ensures parts != []
  {
    if s == "" then [""]
    else
      var rest := Split(s[1..], sep);
      if s[0] == sep then [""] + rest else [[s[0]] + rest[0]] + rest[1..]
  }

  /** g_strsplit: no pieces for the empty string. */
  function StrSplit(s: string, sep: char): seq<string> {
    if s == "" then [] else Split(s, sep)
  }

  function Join(parts: seq<string>, sep: char): string {
    if parts == [] then ""
    else if |parts| == 1 then parts[0]
    else parts[0] + [sep] + Join(parts[1..], sep)
  }

  lemma {:induction false} JoinOfSplit(s: string, sep: char)
    ensures Join(Split(s, sep), sep) == s
    ensures forall p :: p in Split(s, sep) ==> sep !in p
  {
    if s != "" {
      JoinOfSplit(s[1..], sep);
      var rest := Split(s[1..], sep);
      assert s == [s[0]] + s[1..];
      if s[0] == sep {
        assert ([""] + rest)[1..] == rest;
      } else {
        var parts := [[s[0]] + rest[0]] + rest[1..];
        assert parts[1..] == rest[1..];
        assert rest == [rest[0]] + rest[1..];
        assert rest[0] in rest;
      }
    }
  }

  lemma {:induction false} SplitOfPart(p: string, sep: char)
    requires sep !in p
    ensures Split(p, sep) == [p]
  {
    if p != "" {
      assert p == [p[0]] + p[1..];
      assert p[0] in p && forall c :: c in p[1..] ==> c in p;
      SplitOfPart(p[1..], sep);
    }
  }

  lemma {:induction false} SplitAtSeparator(p: string, sep: char, s: string)
    requires sep !in p
    ensures Split(p + [sep] + s, sep) == [p] + Split(s, sep)
  {
    var whole := p + [sep] + s;
    if p == "" {
      assert whole[1..] == s;
    } else {
      assert whole[1..] == p[1..] + [sep] + s;
      assert p[0] in p && forall c :: c in p[1..] ==> c in p;
      SplitAtSeparator(p[1..], sep, s);
      assert ([p[1..]] + Split(s, sep))[1..] == Split(s, sep);
      assert [p[0]] + p[1..] == p;
    }
  }

  lemma {:induction false} SplitOfJoin(parts: seq<string>, sep: char)
    requires parts != [] && forall p :: p in parts ==> sep !in p
    ensures Split(Join(parts, sep), sep) == parts
  {
    assert parts[0] in parts && forall p :: p in parts[1..] ==> p in parts;
    assert parts == [parts[0]] + parts[1..];
    if |parts| == 1 {
      SplitOfPart(parts[0], sep);
    } else {
      SplitOfJoin(parts[1..], sep);
      SplitAtSeparator(parts[0], sep, Join(parts[1..], sep));
    }
  }
}
