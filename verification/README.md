# Verified models of Midgard core

Dafny 4.11 models of six largely independent parts of the Midgard C library, with proofs of what
each part is for. `dafny verify dfyconfig.toml` checks everything.

- **MD5** (`Words`, `MachineWords`, `Md5Spec`, `Md5Block`, `Md5Machine`, `Md5Suite`, `Md5Streaming`). RFC 1321 written as functions over
  sequences of bytes and 32-bit words, next to the streaming implementation with its state, bit
  counter and carry buffer in arrays. Whatever way a message is cut into Update calls, the digest is
  the one of sections 3.1 to 3.5; the unrolled transform is the indexed loop of section 3.4. The words
  are shown to be machine words, the round functions are described bit by bit, and the digest of "abc" is
  proved to be the one in section A.5.
- **Constraints to SQL** (`Sql`, `GroupConstraint`, `QueryBuilder`, `Text`, `LinkPath`, `PathWalk`,
  `LinkNavigation`, `LinkStatement`). The printers
  emit tokens; `Sql` parses tokens with the precedence of section 8.12 of SQL-92 and evaluates
  what it parsed under any truth assignment to the conditions. What is printed parses, and means
  what the tree means, also inside an OR group although joins stand outside the parentheses.
  Dotted link paths become join conditions in the builder, which names each table once. What they select
  is what the links reach exactly if the path can be folded onto one place for each table, and a whole
  statement selects what the query means exactly if it cannot do without the path's comparison.
- **Schema types** (`SchemaTypes`, `SchemaExtend`, `SchemaParams`, `SchemaInclude`). Inheritance is
  resolved in place, in the order of a hash table, which is modelled as any order; the outcome is
  always the recursive specification in `SchemaTypes`. Reading include files fills the table with
  exactly the valid files reachable through valid files, cycles included.
- **Text formatter** (`CharBuffer`, `Entities`, `Escapes`, `EscapedText`, `TextLayout`, `TextHeadings`,
  `TextWrap`, `TextFormat`, `TextReading`, `TextIslands`). Growable buffers, integers printed low digit first and reversed in place, four
  escapers with the readers that undo them, the paragraph, heading and list formatter with greedy
  wrapping, and a reader that takes its output back exactly if the text has no island.
- **Workspace tree** (`Workspace`). Lookups and walks over a flat table of rows. The walks are proved
  on every table on which they end, with the exact number of rounds, and the name walk is shown to end
  exactly if the root can be reached. With tidy names and ids, a path resolves to an id exactly if it
  is the join of that id's ancestor names, with or without a slash in front.
- **Parameter cache and execution pool** (`ParameterCache`, `ExecutionPool`). The cache answers what
  an uncached query would over any interleaving of reads and writes in which loads, lookups and writes
  fail, except on a domain whose own load failed over rows that were there; the pool's reference counts
  and end signals are in balance after every step of every interleaving.

`Wrappers` holds the option type and `Sequences` the reversal that several of them share.

C strings are Dafny strings without a NUL; bytes in them are characters below 256. GSList and
GHashTable fields are `seq` and `map` fields that methods reassign. Whether a database call,
a file or a thread operation succeeds is a parameter, quantified over.

## Where the code and its documentation differ

The models follow the code.

- `read_schema_directory` (`src/mgdschema.c:1105-1141`) says that it reads the `.xml` files of a
  directory and recurses into subdirectories. Its directory test is inverted, so it tries to
  open plain files as directories and to parse directories: a directory adds nothing to the table
  (`SchemaInclude.FileTable.ReadDirectory`), and a schema path that names a directory reads no file. That
  is what is documented exactly if every such file below the directory is in the table already.
- A group with a single constraint and no nested group prints the constraint alone and leaves its
  joins out (`src/group_constraint.c:39-45`); `GroupConstraint.Meaning` says so, and
  `JoinsLeftOutExactly` says for which trees that makes no difference.
- `i + 63` in the Update loop wraps around in 32 bits (`src/midgard_md5.c:144`). The loop leaves the
  input exactly if the bytes waiting in the buffer and the new ones together reach 2^32
  (`Md5Streaming.OverrunsExactly`), so Update requires less than that.
- If the query that loads a domain fails, an empty collector stays registered for it
  (`src/midgard_object_parameter.c:133-143`). That does no harm if the domain has no live rows;
  otherwise no later read or write through the object makes the domain right again, and a write can
  give a parameter a second row (`ParameterCache.MidgardObject.Run`, `CreateStaysStale`). Other domains
  are not affected.
- A parent's property is put in the ordered list unless a name that differs only by case is
  there, but always in the hash (`src/mgdschema.c:1445-1450`). List and hash agree exactly if only
  names that a type declares itself clash in that way, among all names that it and its ancestors declare
  (`SchemaParams.FinalConsistent`).
- The joins of a link path stand at the end of the WHERE clause, outside all groups
  (`src/midgard_core_query_builder.c:280-289`). A row that meets another alternative of an OR group but has
  no linked row is therefore not selected (`LinkStatement.OrGroupLosesRow`). The statement selects what the
  query means exactly if the path has no links or the clause cannot hold with only the path's comparison
  false (`LinkStatement.StatementFollowsExactly`).
- A path that comes back to a table names it once in FROM, so the row there has to be the same each time
  (`LinkPath.OwnTableIsNotNavigated`). That loses nothing exactly if the path folds
  (`LinkNavigation.ComparesExactly`): paths that visit no table twice do, a link from a column to itself that
  is compared on that column does, and of the paths over ordinary links no other does.
- Printing the most negative int negates it, which overflows; `CharBuffer.AddInt` excludes it.

## Model

| member | source | states |
|---|---|---|
| Words.RotateIsCircular | src/midgard_md5.c:76-78 | the shift-and-or macro rotates the 32 bits of a word, for shifts from 1 to 31 |
| MachineWords.BitwiseBit | src/midgard_md5.c:71-74 | AND, OR and XOR work on each bit by itself |
| MachineWords.SameBits | src/midgard_md5.c:71-74 | a number is determined by its bits |
| MachineWords.AddValue | src/midgard_md5.c:80-102 | the sum of two 32-bit machine words has the value of the sum modulo 2^32 |
| MachineWords.RotatedValue | src/midgard_md5.c:76-78 | the two shifts joined by OR on a machine word have the value of the model's |
| Md5Machine.FSelects | src/midgard_md5.c:71 | each bit of F is the bit of y where x has a one and the bit of z where it has a zero |
| Md5Machine.GSelects | src/midgard_md5.c:72 | each bit of G is the bit of x where z has a one and the bit of y where it has a zero |
| Md5Machine.HIsParity | src/midgard_md5.c:73 | each bit of H is the parity of the three bits |
| Md5Machine.ITurnsOver | src/midgard_md5.c:74 | each bit of I is the bit of y, turned over where x has a one or z a zero |
| Md5Machine.OperationOnMachine | src/midgard_md5.c:80-102 | one operation of section 3.4 is what additions, bit operators and shifts on 32-bit machine words compute |
| Md5Suite.AbcDigest | src/midgard_md5.c:106-183 | the digest of "abc" is 900150983cd24fb0d6963f7d28e17f72, as section A.5 of RFC 1321 has it |
| Md5Spec.WordsOfBytesOf | src/midgard_md5.c:280-311 | decoding little-endian bytes gives back any words that were encoded |
| Md5Spec.BytesOfWordsOf | src/midgard_md5.c:280-311 | encoding gives back any whole number of decoded words' bytes |
| Md5Spec.FoldAppend | src/midgard_md5.c:139-148 | compressing block by block may be split at any block boundary, whatever the compression function |
| Md5Spec.Padded | src/midgard_md5.c:165-175 | padding and length always fill up to a multiple of 64 bytes |
| Md5Block.Encode | src/midgard_md5.c:280-293 | writes the little-endian bytes of the words, masking and shifting as the C code does, and nothing after them |
| Md5Block.Decode | src/midgard_md5.c:298-311 | puts together the words of section 2 of RFC 1321 with shifts and ors, and leaves the rest of the output alone |
| Md5Block.StepIsOperation | src/midgard_md5.c:80-102 | one FF, GG, HH or II step is one operation of section 3.4 of RFC 1321 with its table, shift and message index |
| Md5Block.FourSteps | src/midgard_md5.c:196-266 | four unrolled steps with rotated variable names are four operations of the indexed loop |
| Md5Block.Round1 | src/midgard_md5.c:196-212 | the sixteen unrolled FF steps are the sixteen operations of round 1 |
| Md5Block.Round2 | src/midgard_md5.c:214-230 | the sixteen unrolled GG steps are the sixteen operations of round 2 |
| Md5Block.Round3 | src/midgard_md5.c:232-248 | the sixteen unrolled HH steps are the sixteen operations of round 3 |
| Md5Block.Round4 | src/midgard_md5.c:250-266 | the sixteen unrolled II steps are the sixteen operations of round 4 |
| Md5Block.Transform | src/midgard_md5.c:187-275 | for every state and block, the transform leaves the state of the indexed loop in the state array |
| Md5Streaming.CountCarries | src/midgard_md5.c:129-133 | adding with the carry test on two words keeps them equal to 8 times the length modulo 2^64 |
| Md5Streaming.CounterIndex | src/midgard_md5.c:126-127 | the masked low counter word is the number of bytes waiting in the buffer |
| Md5Streaming.Context.Init | src/midgard_md5.c:106-115 | afterwards the context stands for the empty message |
| Md5Streaming.Context.Update | src/midgard_md5.c:121-155 | keeps the invariant (counter is the bit length, buffer holds the last incomplete block, state has absorbed the whole blocks) for the message extended by the input |
| Md5Streaming.Context.Final | src/midgard_md5.c:160-183 | the digest is MD5 of the whole message, and state, counter and buffer are wiped |
| Md5Streaming.DigestOfRun | src/midgard_md5.c:106-183 | Init, Update on any list of chunks and Final give MD5 of the chunks joined together |
| Md5Streaming.OverrunsExactly | src/midgard_md5.c:144 | the wrapping loop test lets the loop read past the input exactly if waiting and new bytes together reach 2^32 |
| Md5Streaming.StaysInside | src/midgard_md5.c:144-145 | below that bound every block the loop reads lies inside the input |
| Sql.JoinAnd | src/group_constraint.c:47-74 | items that each contribute a conjunction, joined by AND, parse as the conjunction of all of them in any context |
| Sql.JoinOr | src/group_constraint.c:47-74 | the same items joined by OR parse as their disjunction in any context that AND does not continue |
| Sql.EvalDisjunction | src/group_constraint.c:47-74 | the parsed disjunction is true exactly if one of the items is |
| GroupConstraint.AddItems | src/group_constraint.c:49-72 | the two counting loops print every constraint, then every nested group, with the connective between each two |
| GroupConstraint.AddJoins | src/group_constraint.c:78-88 | appends every direct constraint's joins, each after an AND |
| GroupConstraint.AddSql | src/group_constraint.c:22-89 | appends the group's printed form to whatever the string held before |
| GroupConstraint.PrintedChain | src/group_constraint.c:22-89 | a printed group contributes exactly its intended conjuncts whatever follows it, so it may stand under OR or AND |
| GroupConstraint.TermMeaning | src/group_constraint.c:22-89 | the intended conjuncts are true exactly if the group is: empty is true, a lone constraint is itself, else the operator over its parts and all direct joins |
| GroupConstraint.PrintedMeans | src/group_constraint.c:22-89 | for every finite tree and every valuation, the tokens parse completely and evaluate to the tree's meaning |
| GroupConstraint.JoinsLeftOutExactly | src/group_constraint.c:39-45 | the tree and all its parts mean the same with all joins exactly if no lone constraint has a join besides its own condition |
| QueryBuilder.WhereClauseMeans | src/midgard_core_query_builder.c:228-303 | before any ending, the clause parses and evaluates to all constraints, their joins, all groups and the trailing conditions together |
| QueryBuilder.ReversedGroupsMeanTheSame | src/midgard_core_query_builder.c:236-237 | reversing the groups, as every call does, changes neither the meaning nor the value of the parsed clause |
| QueryBuilder.StatementMeans | src/midgard_core_query_builder.c:184-334 | in every emitted statement, the tokens behind WHERE parse up to the ORDER BY, LIMIT or OFFSET part and mean everything the builder held before the call, whichever way round the groups were printed |
| QueryBuilder.Builder.AddConstraints | src/midgard_core_query_builder.c:153-182 | prints every constraint with its joins between ANDs, or 1=1 when there is nothing at all |
| QueryBuilder.Builder.AddGroups | src/midgard_core_query_builder.c:235-259 | prints every group between ANDs, with an AND in front if constraints came before |
| QueryBuilder.Builder.AddTrailing | src/midgard_core_query_builder.c:261-303 | prints order joins, builder joins and the not-deleted filter, each after an AND |
| QueryBuilder.Builder.AddTables | src/midgard_core_query_builder.c:205-226 | lists each table of the hash once, in any order, between commas |
| QueryBuilder.Builder.AddWhere | src/midgard_core_query_builder.c:228-303 | the emitted clause is the one WhereClauseMeans is about, and the group list is left reversed |
| QueryBuilder.Builder.GetSql | src/midgard_core_query_builder.c:184-334 | the whole statement: SELECT, DISTINCT if asked for, head, clause over the reversed groups and ending; the condition behind WHERE parses and holds exactly if all constraints with their joins, all groups given, the joins of all orderings and of the builder do and, unless deleted objects are included or have no field, table.field = FALSE; fails exactly if an error was set, and then changes nothing |
| QueryBuilder.EndingSays | src/midgard_core_query_builder.c:327-331 | LIMIT stands there with the limit exactly if one is set and the statement is no count, and OFFSET with the offset exactly if one is set |
| QueryBuilder.EndingOrders | src/midgard_core_query_builder.c:305-325 | ORDER BY is followed by the orderings in their order |
| Text.JoinOfSplit | src/midgard_core_query_builder.c:548-553 | splitting loses nothing and leaves no separator in a part |
| Text.SplitOfJoin | src/midgard_core_workspace.c:382-386 | parts without the separator come back from their join |
| LinkPath.AddJoin | src/midgard_core_query_builder.c:370-393 | appends a join condition exactly if it is not in the list |
| LinkPath.AddedMembers | src/midgard_core_query_builder.c:370-393 | adding joins one by one leaves exactly the old ones and the added ones in the list |
| LinkPath.JoinReference | src/midgard_core_query_builder.c:347-368 | adds the two constraints that tie attachments or parameters to their object |
| LinkPath.SetPropertyAttr | src/midgard_core_query_builder.c:395-532 | one token: the state of constraint and builder afterwards is that of the walk over the classes, for link, last property, guid, metadata, attachment and parameter with their once-only joins, and for the unknown name; duplicates never enter the join list and joined tables always enter the FROM set |
| LinkPath.ParseTokens | src/midgard_core_query_builder.c:599-618 | for every list of tokens, the outcome and the state of constraint and builder are those of the walk up to the first unknown token |
| LinkPath.ParseProperty | src/midgard_core_query_builder.c:535-619 | for every name and every earlier state, the outcome and the state afterwards are those of the walk; keeps the join list free of duplicates and its tables in the FROM set, and takes nothing out of either |
| LinkPath.LinkPathThrough | src/midgard_core_query_builder.c:599-618 | on a link path the walk adds exactly the path's joins once each, and the last column is the one to compare |
| PathWalk.ThroughKnown | src/midgard_core_query_builder.c:599-618 | a path is accepted exactly if each token is reserved or a property of the class that the tokens before it lead to |
| PathWalk.ThroughYields | src/midgard_core_query_builder.c:395-532 | an accepted path refers to the last token in the class it belongs to and to its column; it adds the conditions of the links before it and, once each, the constraints of attachments and parameters |
| PathWalk.ParsedYields | src/midgard_core_query_builder.c:535-619 | the same for every name: without dots it has to be a property of the class, with two or three tokens it is the walk, with more it is refused |
| PathWalk.MetadataPath | src/midgard_core_query_builder.c:408-413 | the token after metadata is looked up in the metadata class and compared in the table that was meant before, without joins or constraints |
| PathWalk.ParameterPath | src/midgard_core_query_builder.c:429-447 | the token after parameter is looked up in the parameter class and compared in record_extension, with the two constraints and without doubled rows |
| PathWalk.ReferenceMeans | src/midgard_core_query_builder.c:347-368 | those constraints hold for rows whose parent_guid is the guid of the object's row and that are not deleted |
| LinkPath.ParsedIsEmitted | src/midgard_core_query_builder.c:535-619 | what parsing a link path leaves in a new builder, which starts with all tables of the class (`src/query_builder.c:119-126`), is exactly the joins of the path and the tables of path and class |
| LinkPath.PathSelects | src/midgard_core_query_builder.c:467-512 | on every link path, the emitted joins and tables select exactly the rows from which the links lead to a match through rows that are the same wherever the path comes back to a table, provided each table of the class has a row |
| LinkPath.PathNavigates | src/midgard_core_query_builder.c:370-619 | over distinct tables, the emitted joins and tables select a base row exactly if following the links reaches a matching row, for any test of the last column, provided each table of the class has a row |
| LinkPath.ParsePath | src/midgard_core_query_builder.c:535-619 | after parsing a link path into a new builder with the tables of its class, its join list, FROM set and comparison column are those of the path and select, for every database, row and test, what the links lead to in place, and over distinct tables what they reach; from a database with an empty table of the class they select nothing |
| LinkPath.ParseAll | src/midgard_core_query_builder.c:370-393 | over any sequence of names parsed into one builder, no join is listed twice, all joined tables are in the FROM set, and every link path among the names has its joins and tables there |
| LinkPath.OwnTableIsNotNavigated | src/midgard_core_query_builder.c:478-498 | a link back into its own table reaches a row that the joins, which name the table once, do not select |
| LinkNavigation.ComparesExactly | src/midgard_core_query_builder.c:467-512 | on every link path, the joins select what following the links reaches, for every database and comparison, exactly if the path folds: each table can be given one place on the path such that every link and the comparison find there the values they compare |
| LinkNavigation.PlainFoldsExactly | src/midgard_core_query_builder.c:467-512 | a path over distinct tables folds; if no link compares a column with itself or starts from the column just reached, no other path does |
| LinkNavigation.NavigatesExactly | src/midgard_core_query_builder.c:467-512 | over such links, the joins select what the links reach, for every database and any test, exactly if the path visits no table twice |
| LinkNavigation.OwnColumnFolds | src/midgard_core_query_builder.c:478-498 | a link from a property to itself, compared on it, visits its table twice and folds all the same |
| LinkStatement.ClauseOfChoice | src/midgard_core_query_builder.c:228-303 | the clause holds for a choice of rows exactly if its joins do and the query does with what the choice compares |
| LinkStatement.SelectsAlongLinks | src/midgard_core_query_builder.c:184-334 | under the conditions of any query that contains a link path, a row is selected exactly if the links lead to a match in place and the query holds with one, or lead anywhere and it holds without one |
| LinkStatement.RowFollowsExactly | src/midgard_core_query_builder.c:280-289 | row by row, that is what the query means exactly if a row that meets the query without a match has linked rows |
| LinkStatement.StatementFollowsExactly | src/midgard_core_query_builder.c:184-334 | the condition behind WHERE parses, and selects what the query means for every database, comparison and truth of the other conditions exactly if the path has no links or the clause cannot hold with only the path's comparison false |
| LinkStatement.TopConstraintFollows | src/midgard_core_query_builder.c:153-182 | every statement that compares the path in a constraint outside all groups selects what the query means |
| LinkStatement.OrGroupLosesRow | src/midgard_core_query_builder.c:280-289 | a row that meets the other alternative of an OR group but has no linked row meets the query and is selected by no statement for it |
| LinkStatement.DeletedRowIsNotSelected | src/midgard_core_query_builder.c:293-303 | a statement with the filter selects no row whose deleted column is not false, whatever else it asks for |
| SchemaTypes.FinalProperty | src/mgdschema.c:1384-1454 | an own property wins; otherwise a copy of the first listed parent's that has one |
| SchemaTypes.FinalSaysTheSame | src/midgard_core_schema.c:81-120 | a resolved property has the name, type, field, table, link, user values and primary flag of the declaration that the walk over first listed parents finds; an own one is its declaration, an inherited one is neither private nor unique |
| SchemaTypes.FinalOrder | src/mgdschema.c:1445-1449 | a resolved list ends with the type's own names in declared order, behind names that differ from all of them in more than case |
| SchemaTypes.FinalTable | src/mgdschema.c:1440-1443 | an own table wins; otherwise the first listed parent's |
| SchemaTypes.FinalScalar | src/midgard_core_schema.c:247-313 | the last listed parent that has the attribute wins over the others and over the type itself |
| SchemaTypes.AbsorbingAgain | src/mgdschema.c:1399-1454 | absorbing the same resolved parents again changes nothing |
| SchemaExtend.TypeAttr.AttrExtend | src/midgard_core_schema.c:247-313 | each attribute that the source has replaces the type's own |
| SchemaExtend.TypeAttr.InheritList | src/mgdschema.c:1445-1449 | prepends each parent's name unless it is listed in some case |
| SchemaExtend.TypeAttr.PropertyCopy | src/midgard_core_schema.c:81-120 | stores under the property's name a copy with all its attributes, but neither private nor unique |
| SchemaExtend.TypeAttr.InheritProperties | src/mgdschema.c:1384-1397 | whatever order the hash is walked in, exactly the missing properties are copied |
| SchemaExtend.TypeAttr.Absorb | src/mgdschema.c:1437-1450 | one parent's whole contribution, as the specification has it |
| SchemaExtend.ExtendType | src/mgdschema.c:1399-1454 | a type that is unresolved or resolved ends resolved, its ancestors stay one or the other, resolved types stay so, and no other type changes |
| SchemaExtend.ExtendAll | src/mgdschema.c:1456-1468 | visiting all types in any order resolves each of them to the order-free specification, and every property says what its declaration says |
| SchemaParams.AddProperties | src/mgdschema.c:772-829 | parsing keeps list and hash in agreement, keeps the declared order, and fails exactly on a repeated name |
| SchemaParams.FinalConsistent | src/mgdschema.c:1445-1450 | after extension list and hash agree exactly if no two names that the type and its ancestors declare differ only by case, but those the type declares itself |
| SchemaParams.PropertyIsDeclared | src/mgdschema.c:1384-1397 | a type ends up with a property exactly if it or one of its ancestors declares it |
| SchemaParams.SlotsForAll | src/midgard_core_schema.c:477-561 | every resolved type's list fits the allocation, and every property gets a slot exactly if only names that the type declares itself clash among all that it and its ancestors declare |
| SchemaParams.InitializeParamspec | src/midgard_core_schema.c:477-561 | fills the slots in list order up to the first name without a hash entry, each with the kind of its property's type and strings for types without one |
| SchemaParams.CaseClashBreaksList | src/mgdschema.c:1445-1450 | a type that declares Title under a parent that declares title is resolved to a hash of two and a list of one |
| SchemaInclude.FileTable.ReadFile | src/mgdschema.c:1041-1103 | terminates on every include graph; adds only valid files reachable from the file, each once, and leaves nothing they include unread |
| SchemaInclude.FileTable.ReadDirectory | src/mgdschema.c:1112-1141 | adds nothing, because the directory test is inverted; with a table that misses no include, that is the documented reading exactly if all valid .xml files below the directory are in the table already |
| SchemaInclude.FileTable.NothingReadIsDocumented | src/mgdschema.c:1105-1111 | leaving the table as it is adds the files below a directory and all they include exactly if they are there already |
| SchemaInclude.FileInDirectory | src/mgdschema.c:1105-1111 | a directory with one schema file, which is therefore missed |
| SchemaInclude.FileTable.ReadPath | src/mgdschema.c:1019-1028 | a valid file ends up in the table; what is new is reachable from the path |
| SchemaInclude.ReadSchemaFiles | src/mgdschema.c:1152-1158 | the table holds a file exactly if it is reachable from the path through valid files; on a directory that is the documented reading exactly if no valid .xml file is below it |
| SchemaInclude.ClosedReaches | src/mgdschema.c:1076-1102 | a table that misses no include of its files holds everything reachable from them |
| CharBuffer.Buffer.Add | src/format.c:93-105 | appends one character, also when the buffer has to move to a larger one |
| CharBuffer.Buffer.ReverseFrom | src/format.c:141-145 | the swap loop reverses the tail of the buffer and nothing before it |
| CharBuffer.AddInt | src/format.c:126-147 | appends the canonical decimal form of every int but the most negative |
| CharBuffer.ReadIntText | src/format.c:126-147 | reading a printed integer gives it back together with whatever follows it |
| CharBuffer.FormatIds | src/format.c:405-420 | prints the ids before the zero between commas, or -1, in parentheses |
| CharBuffer.ListRoundTrip | src/format.c:405-420 | reading the printed list gives the ids before the zero, or -1 alone if there are none |
| Entities.TableAgrees | src/format.c:67-83 | each of the 96 table names is the HTML 4.01 entity of its code from 160 to 255 |
| Escapes.AddSql | src/format.c:180-211 | appends the text with quotes and backslashes escaped |
| Escapes.AddCleanSql | src/format.c:213-244 | appends the same without newlines |
| Escapes.CleanIsSqlWithoutNewlines | src/format.c:180-244 | clean escaping is escaping of the text without its newlines |
| Escapes.FormatQuoted | src/format.c:432-438 | appends the quoted literal |
| Escapes.QuotedRoundTrip | src/format.c:180-211 | a lexer of backslash-escaped literals reads back the text and stops at the literal's last byte, whatever follows |
| EscapedText.SqlKeeps | src/format.c:180-211 | text without quotes and backslashes is kept |
| Escapes.FormatUrl | src/format.c:476-496 | appends the percent encoding of every byte string |
| Escapes.UrlRoundTrip | src/format.c:476-496 | percent decoding of section 2.1 of RFC 3986 gives the bytes with each newline as CR LF |
| Escapes.UrlInjective | src/format.c:476-496 | different texts have different encodings |
| EscapedText.UrlIsEncoded | src/format.c:476-496 | only letters, digits and percent signs with two hexadecimal digits come out, and letters and digits are kept |
| Escapes.AddHtml | src/format.c:296-312 | appends the text with only the upper half replaced by entities |
| Escapes.TextFrom | src/format.c:246-294 | what the loop still has to print from a byte on is plain text, an island, and the rest |
| Escapes.AddPlain | src/format.c:246-294 | plain escaping outside the islands between [< and >], entity replacement only inside them; without html everything is plain |
| Escapes.PlainRoundTrip | src/format.c:246-294 | decoding the entity references of HTML 4.01 in plain output gives the original bytes |
| EscapedText.PlainIsClean | src/format.c:246-294 | plain output has no <, > or double quote and no byte from 160 on, and text without these and ampersands is kept |
| EscapedText.HtmlIsClean | src/format.c:296-312 | html output has no byte from 160 on, and text without them is kept |
| TextLayout.PiecesBalanced | src/format.c:355-396 | every list that is opened is closed, lists do not nest, items stand inside and other blocks outside |
| TextLayout.WordsOfBlock | src/format.c:333-379 | a block's words are exactly those of its part of the text with a space for its dash |
| TextLayout.DashPerItem | src/format.c:369-373 | exactly one leading dash is taken away for each list item |
| TextLayout.WordsComeThrough | src/format.c:315-398 | in order, the pieces hold exactly the input's words, less one dash for each list item |
| TextHeadings.WordIsRun | src/format.c:340-344 | a word goes exactly up to the next space, tab or line break |
| TextHeadings.BlankLinesSkipped | src/format.c:362-365 | before a block only blanks and line breaks are skipped, and all of them |
| TextHeadings.BodyIsRun | src/format.c:371-374 | a block is a longest run of lines: every line in it goes on with text and no dash, and it ends with the text or before a blank line or a dash |
| TextHeadings.OneLineText | src/format.c:376-391 | a one-line text with words and no dash in front is a heading exactly if headings are asked for, it has no dot and fewer than ten words, and else a paragraph |
| TextHeadings.HeadingsAreShort | src/format.c:381-386 | every heading of any text is a block of one line with one to nine words and no dot |
| TextWrap.WrapsGreedily | src/format.c:337-341 | every wrapped line is longer than 70 and at most 70 without its last word and the space before it |
| TextWrap.LaidWordsComeBack | src/format.c:333-349 | cutting the laid out text at spaces and newlines gives back exactly the words |
| TextWrap.PiecesHoldWords | src/format.c:333-349 | the words of every piece of every text are non-empty and free of blanks and newlines, as the two results above ask |
| TextFormat.FormattedText | src/format.c:315-398 | before escaping: for any text the pieces have balanced lists, hold the input's words in order less one dash for each item, and every block's text is wrapped greedily and holds exactly its words |
| TextFormat.Formatter.AccChar | src/format.c:107-124 | appends to the accumulator and keeps the column equal to the length of its last line |
| TextFormat.Formatter.DoLine | src/format.c:333-349 | adds a line's words to the block's layout, counts them, notes dots, and stops at the start of the next line |
| TextFormat.Formatter.AddBlock | src/format.c:355-396 | one round writes what the next block contributes, tags included, and keeps track of the open list |
| TextFormat.Formatter.AddText | src/format.c:351-398 | terminates on every text and appends the rendering of its pieces |
| TextReading.PlainTextReadsBack | src/format.c:246-398 | for every text of bytes without an island, a reader of the rendered string, which takes the tags, decodes the entities and cuts at spaces and newlines, gives back exactly the pieces with their words |
| TextIslands.FormattedReadsBack | src/format.c:246-398 | for every text of bytes, with headings or without, the reader gives back the pieces exactly if the text has no island |
| TextIslands.RenderedBrackets | src/format.c:246-294 | what is rendered holds at most as many opening brackets as the words, and fewer if a piece has an island |
| TextIslands.IslandInPiece | src/format.c:333-379 | an island of the text survives in some piece |
| TextIslands.IslandBringsMarkup | src/format.c:268-287 | a text that is one word and one island is one paragraph, and what stands between its tags is the island's markup as it is |
| TextIslands.ListInIsland | src/format.c:268-287 | for the text [<<ul>>], that opens a list that nothing closes |
| TextIslands.MarkupIsNotRead | src/format.c:268-287 | a paragraph whose text starts with markup of its own is not taken by the reader |
| Workspace.GetRowById | src/midgard_core_workspace.c:187-228 | finds the first row with the id, and its number, on any table |
| Workspace.GetIdByName | src/midgard_core_workspace.c:106-150 | finds the first row with the parent and name, and its number, on any table |
| Workspace.WalkEndsExactly | src/midgard_core_workspace.c:334-368 | on any table, the name loop from a known row ends within n rounds exactly if the root is within n steps |
| Workspace.NeverEnds | src/midgard_core_workspace.c:334-368 | from an unknown id the name loop ends at once if no name was found before, and never if one was |
| Workspace.NameRoundsAreLeast | src/midgard_core_workspace.c:334-368 | the rounds counted by the name loop are the first number of rounds after which it no longer runs |
| Workspace.GetParentNames | src/midgard_core_workspace.c:334-368 | on every table on which the loop ends: the names from the root down to the row, in exactly those rounds |
| Workspace.RoundsAreLeast | src/midgard_core_workspace.c:231-263 | the same for the id loop, which also ends at a parent that is missing |
| Workspace.GetParentIds | src/midgard_core_workspace.c:231-263 | on every table on which the loop ends: the ancestor chain, top first, in exactly those rounds, cut off at a missing parent |
| Workspace.GetContextIds | src/midgard_core_workspace.c:266-291 | on every table on which the walk ends: the ancestor chain, nearest first; an unknown id alone; nothing for 0 |
| Workspace.ChainIsAncestry | src/midgard_core_workspace.c:231-291 | the chain starts at the row and goes up by the links to a root or to below a missing parent |
| Workspace.ChainHasNoRepeats | src/midgard_core_workspace.c:231-291 | whenever the walk ends, it meets no row twice |
| Workspace.ForestWalksEnd | src/midgard_core_workspace.c:231-368 | on a table with closed and acyclic up links both walks end from every row |
| Workspace.GetChildrenIds | src/midgard_core_workspace.c:294-331 | the ids of the rows under a row |
| Workspace.ChildIdsInOrder | src/midgard_core_workspace.c:294-331 | one id for each row under the given one, in the order of the table |
| Workspace.ChildrenHaveParentNext | src/midgard_core_workspace.c:294-331 | with unique ids, a row is listed under a known row exactly if that row is next in its chain |
| Workspace.GetIdByPath | src/midgard_core_workspace.c:371-438 | resolves the path token by token, with the error for an empty or bare path and the one for a missing name |
| Workspace.InvalidPathExactly | src/midgard_core_workspace.c:371-405 | a path is refused as invalid exactly if it is empty, ends with a slash or has two slashes next to each other |
| Workspace.PathsAreNames | src/midgard_core_workspace.c:334-438 | with unique positive ids, unique names under a parent and names fit for paths, a path resolves to an id exactly if the root can be reached from the id and the path joins the names down to it, up to a leading slash |
| Workspace.RootedPathsAreNames | src/midgard_core_workspace.c:334-438 | for an id that reaches the root, those names are the ones the name walk gives |
| ParameterCache.CreateMirrors | src/midgard_object_parameter.c:206-234 | creating a row and setting the cached value keeps the domain right: the cache answers as the database does and no name has two live rows |
| ParameterCache.UpdateMirrors | src/midgard_object_parameter.c:282-295 | updating the row and the cached value keeps the domain right |
| ParameterCache.DeleteMirrors | src/midgard_object_parameter.c:272-280 | deleting the row and removing the key keeps the domain right |
| ParameterCache.FailedLoadIsStale | src/midgard_object_parameter.c:133-143 | a failed load over live rows leaves a collector that misses a row |
| ParameterCache.StaleIsWrong | src/midgard_object_parameter.c:133-143 | a collector that misses a row, or knows a name of two, belongs to a domain that is not right |
| ParameterCache.CreateStaysStale | src/midgard_object_parameter.c:206-234 | creating a parameter beside such a collector leaves the row unknown or gives it a double |
| ParameterCache.UpdateStaysStale | src/midgard_object_parameter.c:282-295 | updating one beside it leaves it missing a row |
| ParameterCache.DeleteStaysStale | src/midgard_object_parameter.c:272-280 | deleting one of two rows of a name makes the collector forget the other |
| ParameterCache.Collector.Set | src/midgard_collector.c:365-431 | sets one subkey of one key exactly if the subkey is a property of the class or of its metadata, and keeps all others |
| ParameterCache.Collector.RemoveKey | src/midgard_collector.c:677-695 | removes the key exactly if it is there |
| ParameterCache.Collector.Execute | src/midgard_collector.c:844-989 | in any row order, the loaded content gives the database's answer for every name |
| ParameterCache.MidgardObject.GetParameter | src/midgard_object_parameter.c:107-156 | in a right domain answers what an uncached query would; a right domain stays right exactly if it was loaded, loads now, or has no live rows, and else misses a row from then on |
| ParameterCache.MidgardObject.SetParameter | src/midgard_object_parameter.c:170-305 | creates, updates or deletes one row and the cached value under failing loads, lookups and writes, and touches no other row; a right domain stays right under the same condition as for a read, and one that misses a row goes on missing one |
| ParameterCache.MidgardObject.Serve | src/midgard_object_parameter.c:107-305 | one call leaves every other domain as right or as wrong as it was |
| ParameterCache.MidgardObject.Run | src/midgard_object_parameter.c:107-305 | over any sequence of reads and writes with any loads, lookups and writes failing, judged domain by domain: up to a failed load over live rows every call is served from the database of that moment and no name has two live rows, and a domain is right at the end exactly if it had no such load |
| ParameterCache.OthersStay | src/midgard_object_parameter.c:170-305 | a write to one object and domain leaves the collectors of all other objects and domains exactly as right or as wrong as they were |
| ExecutionPool.StepKeepsBalance | src/midgard_execution_pool.c:72-126 | every step keeps the reference count equal to owners, queued, running, signalled and pending holds, and pushes equal to the stages they are in |
| ExecutionPool.RunsStayBalanced | src/midgard_execution_pool.c:72-126 | the balance holds after every step of every interleaving |
| ExecutionPool.NoStepTouchesFreed | src/midgard_execution_pool.c:72-126 | no step of any run touches an object whose count is zero |
| ExecutionPool.QuiescentRun | src/midgard_execution_pool.c:104-126 | at quiescence the counts are the owners' and execution-end has fired exactly once for each push |
| ExecutionPool.NeverTooManyEnds | src/midgard_execution_pool.c:104-126 | at no moment has an end been signalled more often than the object was pushed |
| ExecutionPool.NeverTooManyThreads | src/midgard_execution_pool.c:72-126 | at no moment of a run are more threads at work than the pool was allowed up to then |
| ExecutionPool.WorkIsConserved | src/midgard_execution_pool.c:72-126 | pool steps taken and work left always add up to four for each push, so a run without new pushes ends |
| ExecutionPool.NeverStuck | src/midgard_execution_pool.c:72-126 | with a thread available the pool can step until it is quiescent, and only then cannot |

## Left out

- libgda, GObject and GType registration, libxml, the file system, D-Bus, logging and configuration: libraries and I/O; what they return is a parameter of the models.
- Failing allocations: `realloc` and pool allocation are taken to succeed, and NULL string arguments, which the C functions reject first, are not modelled.
- Md5Streaming.Context.Update: requires fewer than 2^32 waiting and new bytes together, because beyond that the code reads outside its input, as OverrunsExactly shows.
- CharBuffer.AddInt: excludes the most negative int, whose negation overflows in C.
- LinkPath.PathNavigates: requires the tables on the path to be distinct; LinkNavigation.ComparesExactly has the condition that is exact for all paths, and PathSelects what any path selects.
- LinkNavigation.ComparesExactly: the comparisons are those that do not hold of NULL, as none of the operators does (`src/query_constraint.c:44-46`).
- LinkStatement.StatementFollowsExactly: one link path for each query, its other conditions being about the row of the base table; following the links is meant in place, which PathSelects and ComparesExactly compare with following them through any rows.
- LinkPath.ParseProperty: the builder is always there, and the registered classes of links and reserved names exist; a property named without dots has a table, as the assertion on adding to the FROM set demands (`src/midgard_core_query_builder.c:119`); condition text is kept as its two columns.
- ExecutionPool.StepKeepsBalance: the pool is a state machine over atomic steps, not a class; the thread pool's own queue is first in, first out, and the executed work itself is not modelled.
- Workspace.GetParentNames: requires that the loop ends within some number of rounds; where it does not, as from a row below a missing parent, there is no result to state.
- SchemaExtend.ExtendType: requires all parents to be declared and extends to be acyclic; the return on an unknown parent, the children list, which grows on every visit, and copy_from, which nothing sets, are not modelled.
- SchemaInclude.ReadSchemaFiles: path strings are the identity of files, and the parsed documents do not change during the reading.
- ParameterCache.MidgardObject.Run: what calls on a domain answer after its own load failed over live rows is not stated beyond the rows they may touch; bulk deletes and purges, which bypass the cache, and other writers to the same object's rows are not modelled.
- ParameterCache.Collector.Set: the call without a subkey, collector merging, list_keys and the reading of values by type are not modelled; values are plain strings, and the properties of the parameter class are those of its schema file.
- `mgd_vformat` and its directives, date formatting, parser registration and callback replacement: the default callbacks are used.
- Splitting the extends attribute into parents, and how groups are opened and closed while a query is built: the models take any parent list and any group tree.
- `midgard_core_query_unescape_string` and `midgard_core_query_compute_constraint_property`: the first does not undo the escaping, the second keeps the link's own column.
- The locale of `isalnum`: letters and digits are those of the C locale.
