# Verified models of the engine's core algorithms

This project models the hardest algorithms of the repository in Dafny and proves what
they promise, or exactly when they keep the promise.  `dafny verify dfyconfig.toml`
checks all of it.  Each file is one module.

| files | what they model |
|---|---|
| `RegexSyntax`, `RegexEscape`, `RegexParser`, `RegexPostfix`, `RegexCode`, `RegexClosure`, `RegexVectorSet`, `RegexNfa`, `RegexPattern`, `RegexLaws` | the regular-expression compiler and matcher of `CORE/UTIL/regex.cpp`, from the text of a pattern to the result of a scan |
| `DistanceField` | the two-sweep distance transform of `TOOLS/bmfontutil/distancefield.cpp` |
| `Events`, `EventLaws` | the intrusive event list of `EXTERN_LIB/srutil/event/event.hpp`, with callbacks that bind, unbind and emit again |
| `Varint`, `Wire`, `WireOutput`, `WireTruncated`, `WireInput`, `WireLaws` | varints, sinks, and the encoder and decoder that `TOOLS/protoc/proto_printer_header.cpp` emits for a message type, on whole and on truncated input |
| `ProtoDef`, `ProtoDefSinks`, `ProtoValidator`, `ProtoTypes`, `ProtoLaws` | descriptors, their binary form, the checks of the protocol compiler and how it resolves type names |
| `VfsPath` | path resolution of `CORE/VFS/path.cpp` |
| `Crc32` | CRC-32 of `CORE/HASH/crc32.cpp` |
| `Escape` | `Escape` and `Unescape` of `CORE/UTIL/stringutil.cpp` |
| `StateMachines` | the state machine of `CORE/UTIL/state_machine.cpp` |
| `AppStats` | the named counters of `CORE/BASE/appstats.cpp` |
| `Basics` | a few shared types |

Code that works by changing things is imperative here as well: classes with the
source's fields, loops over buffers, pointer updates.  Each such method is tied to a
function, relation or reference semantics, and the promises are proved about that.  The
modules whose names end in Laws, and the last lemmas of some others, say what those
functions come to in words, bytes, lists and logs alone.

## Main results

* **The regex compiler preserves meaning.**  The escaping pass puts out exactly the token
  lists of one kind (`ProducibleIff`), with groups and braces matched
  (`ProducibleIsReadable`). A token list is accepted exactly when it prints some pattern
  of a small grammar (`ParsesIffPrinted`); the counter-stack conversion turns it into a
  postfix program for one operand, the pattern's own tree (`InfixToPostfix`); the patching
  builder turns that into the tree's machine (`Nfa.Build`); and the machine accepts
  exactly the tree's language (`MachineAcceptsLanguage`).  What that language is, factor
  by factor, is said on words (`QuantifierLaw`, `SequenceLaw`, `TokenLaw`): the text `a+b`
  does not match `b` and `a*b` does (`LoopsAreToldApart`).
* **The matcher.**  Following SPLIT edges terminates exactly when no `+` or `*` wraps a
  body that accepts the empty word (`RankedIffNoNullableLoop`), and from a single state
  exactly when its silent runs are bounded (`SettlesIffBounded`); a scan needs that only
  where it gets to (`Scannable`, `UnreachedLoop`). `scan` returns the end of the first
  unbroken run of accepted prefixes (`Nfa.Scan`). `match` is documented as a full match
  but is not one: `a|aab` does not match `aab` (`MatchMissesMember`), and the empty input
  matches every pattern (`EmptyMatchesAll`). It is membership exactly when the pattern
  accepts the empty word, for the empty input, and when the accepted prefix lengths, once
  begun, have no gap, for any other (`MatchIsMembershipIff`).
* **The distance transform is exact.**  In real arithmetic every cell ends up with the
  chessboard distance to the nearest seed of the whole grid, unless that is longer than an
  unset cell (`DistanceGrid.ComputeSdf`).
* **Re-entrant events.**  Whatever the callbacks do, the linked list with its bookmarks
  does what a walk over a snapshot does, which calls exactly the binders that have a sink
  and are not bound or unbound before their turn, once each (`EventSource.EmitPlan`,
  `EventSource.EmitCalls`).  An emit by a callback, at any depth, adds to the trace the
  binders reached from the list at its start, once each and in order, each followed by
  what its own callback brings about (`NestedEmit`, `EmitWithinEmit`).
* **The wire format.**  Decoding what was encoded gives the message back exactly if
  everything written is in fields with numbers below 2^29 (`RoundTripIff`), up to the sign
  of a singular floating-point zero, which is lost: the very message comes back exactly if
  no singular float or double holds the bits of a negative zero and fields with larger
  numbers hold what a new builder has (`ComesBackIff`).  It does so in any order of the records that keeps each field's own order and with unknown
  records in between (`AnyOrderRoundTrip`). The encoder and decoder over sinks, ranges and
  nested ranges do just that (`OutSink.PutMessage`, `InSink.GetMessage`).
* **Input and output that do not fit.**  Writing into a blob sets the fail flag exactly
  when what comes before the string the encoding ends with does not fit
  (`WriteInto`). Reading the first k bytes of a message sets it exactly when they end
  inside a tag, a number or a size; cut in a string or in a nested message, the message is
  accepted (`CutRecords`, `CutMessage`, `SendAndCut`).
* **Types.**  Every message-typed field that the protocol compiler lets through outside
  nested messages names a type of the file or of an import (`FieldsHaveTypes`), and
  messages of accepted types survive the wire (`AcceptedRoundTrip`).
* **Descriptors** come back from their binary form exactly when no string in them reaches
  2^32 - 1 bytes (`DescriptorRoundTrip`).
* **Paths.**  The right-to-left walk is left-to-right normalisation (`Walk`,
  `ResolvedIsNormal`) and fails exactly when a prefix climbs out
  (`FailsIffClimbsOut`). The result is absolute exactly if the path is and has no `./` in
  it, or has one and the normal form of its directory begins with an empty name
  (`AbsoluteIff`). Resolving twice is resolving once exactly unless the path has `./` in
  it and the normal form of its directory begins with an empty name and has a name that
  ends in a dot (`ResolveIdempotent`); `//a./b` becomes `/a./b` and then `a./b`
  (`LosesTwoSeparators`).
* **CRC-32.**  The table loop is the bit-by-bit register (`CrcOfBuffer`), and any change
  confined to four consecutive bytes changes the checksum (`BurstDetected`).  The
  case-insensitive form does not tell letters of different case or slashes of different
  direction apart (`CaseIgnored`).
* **Escaping** is undone by unescaping (`UnescapeUndoesEscape`).
* **State machines.**  Over every run, states are entered and left one at a time and
  updated only in between if and only if no state is added again while a terminated
  machine still counts it as current (`DisciplinedIffCareful`).  A transition requested of
  an active machine happens in the next update, whatever is added in between
  (`RequestIsServed`).
* **Counters.**  Under every interleaving a counter is the sum modulo 2^32 of the
  increments since the last reset, and no call is lost or counted twice
  (`CounterConserved`, `NothingLostOrDoubled`).  The loops are lock-free: some call takes
  effect whenever an unfinished thread has moved three times (`LockFree`), an undisturbed
  thread needs two steps for a call, and all threads can be completed from every state
  that is reached (`CallCompletes`, `AllComplete`).

## Where the code differs from what it says

* `CORE/UTIL/regex.cpp:392-396`: `match` compares the end of a scan with the end of the
  input, and a scan stops at the first gap; the empty input matches every pattern
  (`MatchMissesMember`, `EmptyMatchesAll`).
* `CORE/UTIL/regex.cpp:230-251`: a build that fails leaves a machine without states, so a
  scan or a match after it has no state to start from. The model's `Scan` and `Match` are
  about machines that were built.
* `CORE/UTIL/regex.cpp:429-437`: an escaped n, t or r matches that letter
  (`NewlineIsLetter`).
* `CORE/UTIL/regex.cpp:502-503`: a dot is put out as a range and as an operator too, so
  that `[.]` never finishes building (`DotInBraceNeverReturns`).
* `CORE/UTIL/regex.cpp:296-329`: an inverted range has no case and matches nothing.
* `CORE/UTIL/regex.cpp:590` and `:630`: `while (--lits.top())` counts down from zero when
  a group or the pattern is empty or ends with `|`. The result NEVER_RETURNS stands for
  that (`TrailingAlternativeNeverReturns`).
* `TOOLS/protoc/proto_printer_header.cpp:644`: the emitted `1 << 31` is negative, so the
  size limit for strings is 0xFFFFFFFF80000000.
* `TOOLS/protoc/proto_printer_header.cpp:687-692`: an unknown length-delimited field is
  skipped by a zigzag length; `LengthDelimitedSkip` says when that ends up after it
  (`TwoBytesMissed`).
* `TOOLS/protoc/proto_printer_header.cpp:475`: the tag is 32 bits wide, so a field number
  from 2^29 on loses its upper bits and its value is lost or comes back in another field
  (`RoundTripIff`, `WideGoesAstray`).
* `TOOLS/protoc/main.cpp:127-144`: a type name that occurs in a qualified name before its
  end is not found there (`SelfNameMissed`).
* `TOOLS/protoc/main.cpp:165-169`: nobody looks at the result of resolving nested messages
  (`NestedGoesUnchecked`).
* `TOOLS/protoc/proto_printer_header.cpp:480-484`: a singular float or double of negative
  zero equals its default and is not written (`NegativeZeroIsLost`).
* `TOOLS/protoc/proto_printer_header.cpp:516-523`: the result of writing a string is not
  looked at, so a string at the end that does not fit is cut without the fail flag
  (`WriteInto`, `CutSilently`).
* `TOOLS/protoc/proto_printer_header.cpp:644-666`: the result of reading a string is not
  looked at, and a range keeps its fail flag to itself, so input that ends in a string or
  in a nested message is accepted (`CutMessage`, `CutStringGoesUnnoticed`).
* `CORE/BASE/serializer_strings.h:26-28`: a string of 2^32 - 1 bytes or more is left
  unread without setting the fail flag (`LongNameIsLost`).
* `CORE/VFS/path.cpp:160`: an absolute path with `./` in it keeps a leading separator only
  if the normal form of its directory begins with an empty name (`AbsoluteIff`): `/./a`
  becomes `a`, while the relative path `a/..//b` becomes `/b` (`AbsoluteIsLost`).
* `EXTERN_LIB/srutil/event/event.hpp:55-59`: binding through the source does not unbind
  first, and leaves broken links exactly when the binder was in a list
  (`EventSource.SourceBind`, `BindTwice`).
* `CORE/UTIL/state_machine.cpp:126-141`: a terminated machine keeps its current state
  (`TerminatedMachineIsCareless`).

## Model

| member | source | states |
|---|---|---|
| RegexSyntax.NullableIffEmpty | CORE/UTIL/regex.cpp:651-672 | the syntactic test for bodies that accept the empty word is exactly membership of the empty word in the language |
| RegexEscape.EscapePattern | CORE/UTIL/regex.cpp:412-531 | the loop with its three counters gives the tokens of a pattern, or the first error |
| RegexEscape.ProducibleIsReadable | CORE/UTIL/regex.cpp:416-421 | what comes out has balanced groups and closed braces, as the comment on the pass promises those that follow |
| RegexEscape.EscapedIsProducible | CORE/UTIL/regex.cpp:412-531 | a pattern is let through only as a list in which groups, braces and inverted members are where they may be |
| RegexEscape.SpelledComesBack | CORE/UTIL/regex.cpp:412-531 | written out, every such list comes back token by token |
| RegexEscape.ProducibleIff | CORE/UTIL/regex.cpp:412-531 | a token list comes out of some pattern if and only if it is such a list |
| RegexPattern.NewlineIsLetter | CORE/UTIL/regex.cpp:429-515 | an escaped n is the letter n, since the newline computed for it is not used |
| RegexLaws.BackslashLaw | CORE/UTIL/regex.cpp:423-465 | a pattern of a backslash and one character is a named range, that character, or an error, and a backslash at the end is one |
| RegexPattern.DotInBraceNeverReturns | CORE/UTIL/regex.cpp:502-521 | a dot in a brace puts out an operator as well, and the pattern leads into the loop that counts down from zero |
| RegexParser.BraceIsUnion | CORE/UTIL/regex.cpp:533-555 | a brace group accepts exactly the one-character words that one of its members accepts |
| RegexParser.ExpandGroup | CORE/UTIL/regex.cpp:543-555 | from just after the opening brace the loop copies the group to its closing brace, as a group of its members separated by the alternative operator |
| RegexParser.ExpandPattern | CORE/UTIL/regex.cpp:537-563 | the loop over the tokens gives the expansion of every closed brace group and copies all else |
| RegexParser.Desugar | CORE/UTIL/regex.cpp:533-563 | rewriting brace groups to ordinary groups keeps the pattern well formed and its meaning the same |
| RegexParser.ExpandPrinted | CORE/UTIL/regex.cpp:537-563 | expanding a printed pattern gives the printed form of the pattern without braces, whatever follows it |
| RegexParser.DesugaredIsBraceFree | CORE/UTIL/regex.cpp:533-563 | after expansion no brace group is left |
| RegexParser.ParsePrint | CORE/UTIL/regex.cpp:565-638 | the reference parser gives a printed pattern back |
| RegexParser.PrintParse | CORE/UTIL/regex.cpp:577-628 | whatever the reference parser accepts is, operators it passes over aside, the printed form of the well-formed tree it returns |
| RegexParser.ParsesIffPrinted | CORE/UTIL/regex.cpp:577-628 | a token list has a tree if and only if a well-formed pattern prints to its significant tokens |
| RegexPostfix.ExpandedBalanced | CORE/UTIL/regex.cpp:537-563 | brace expansion keeps groups balanced |
| RegexPostfix.PrintedBalanced | CORE/UTIL/regex.cpp:574-599 | printed patterns are balanced and their braces closed, so they meet the conversion's requirement |
| RegexPostfix.EmitConcats | CORE/UTIL/regex.cpp:590-592 | the loop that joins the pending literals leaves the one operand of the term |
| RegexPostfix.EmitAlternatives | CORE/UTIL/regex.cpp:593-595 | the loop that joins the alternatives leaves the one operand of the group, with the meaning of the pattern's right-nested alternation |
| RegexPostfix.OpenGroup | CORE/UTIL/regex.cpp:581-588 | an opening bracket keeps the counter stacks and the output in step with the parser |
| RegexPostfix.CloseGroup | CORE/UTIL/regex.cpp:589-599 | a closing bracket keeps the counter stacks and the output in step with the parser |
| RegexPostfix.CloseAlternative | CORE/UTIL/regex.cpp:600-608 | an alternative operator keeps the counter stacks and the output in step with the parser |
| RegexPostfix.Quantify | CORE/UTIL/regex.cpp:609-616 | a quantifier applies to the last factor only |
| RegexPostfix.PushLiteral | CORE/UTIL/regex.cpp:620-627 | a character joins the pending literals before it goes on the output |
| RegexPostfix.InfixToPostfix | CORE/UTIL/regex.cpp:568-638 | on balanced groups: a token list with a tree gives a postfix program that never underflows and evaluates to exactly one operand, the tree's meaning; otherwise the missing operand, or the loop that counts down from zero, is reported as the code would |
| RegexCode.AtomConsumes | CORE/UTIL/regex.cpp:296-329 | a state built from a token matches exactly the characters the token does |
| RegexCode.TerminalsDistinct | CORE/UTIL/regex.cpp:643-713 | the terminals of a fragment are distinct states of it |
| RegexCode.OpenExits | CORE/UTIL/regex.cpp:723-737 | in an open fragment every terminal has one open exit and no other state has any |
| RegexCode.ExitsInside | CORE/UTIL/regex.cpp:643-718 | all exits of a finished fragment lead into it or to its exit |
| RegexCode.PatchFragment | CORE/UTIL/regex.cpp:723-737 | pointing the open exits of a fragment at a state gives the fragment with that exit |
| RegexCode.WordHasRun | CORE/UTIL/regex.cpp:643-718 | every word of the language has a run through the fragment, entry to exit |
| RegexCode.RunReadsWord | CORE/UTIL/regex.cpp:643-718 | a run that enters a fragment and leaves it reads a word of the language up to the exit |
| RegexCode.MachineAcceptsLanguage | CORE/UTIL/regex.cpp:643-718 | some path from the start to MATCH reads w if and only if w is in the tree's language, for every tree and word |
| RegexLaws.TokenLaw | CORE/UTIL/regex.cpp:296-329 | a token alone accepts exactly the one-character words with its own character, with any but its own, with any at all, or with one of its named range; an inverted range accepts none |
| RegexLaws.SequenceLaw | CORE/UTIL/regex.cpp:683-690 | a factor after a term accepts exactly the words that fall into a word of the term and one of the factor, in this order |
| RegexLaws.AlternativeLaw | CORE/UTIL/regex.cpp:673-682 | an alternation accepts exactly the words of its parts |
| RegexLaws.QuantifierLaw | CORE/UTIL/regex.cpp:651-672 | for every factor and word: + accepts exactly the words that one or more words of the factor give one after another, * also the empty word, and ? that and one word of the factor |
| RegexClosure.RankFalls | CORE/UTIL/regex.cpp:359-372 | ranks fall along the SPLIT edges of a fragment without nullable loops |
| RegexClosure.NullableLoopCycles | CORE/UTIL/regex.cpp:359-372 | a nullable body under plus or star gives a cycle of SPLIT edges |
| RegexClosure.RankedIffNoNullableLoop | CORE/UTIL/regex.cpp:359-372 | following SPLIT edges terminates if and only if no plus or star wraps a nullable body |
| RegexClosure.SettlesIffBounded | CORE/UTIL/regex.cpp:359-372 | following SPLIT edges from a state ends within n levels if and only if no silent run from it is longer than n |
| RegexClosure.AllSettled | CORE/UTIL/regex.cpp:359-372 | without nullable loops it ends from every state |
| RegexClosure.ClosureOfSplit | CORE/UTIL/regex.cpp:366-368 | what a SPLIT state reaches is what its two exits reach |
| RegexClosure.StatesAfterNext | CORE/UTIL/regex.cpp:291-335 | the states after one more character are those reached from the exits of states that consume it |
| RegexClosure.AcceptsIffMatch | CORE/UTIL/regex.cpp:377-387 | a word is accepted if and only if a MATCH state is among the states after it |
| RegexClosure.EmptyStaysEmpty | CORE/UTIL/regex.cpp:288-290 | once no state is left none comes back, so stopping there loses nothing |
| RegexVectorSet.InsertedFits | CORE/UTIL/regex.cpp:37-47 | placing a new element before the first larger one keeps the buffer strictly sorted, adds just that element and keeps it within 255 |
| RegexVectorSet.VectorSet.LowerBound | CORE/UTIL/regex.cpp:38 | everything before the position is smaller than the element and nothing from it on is |
| RegexVectorSet.VectorSet.PlaceAt | CORE/UTIL/regex.cpp:40-44 | moving the tail up by one and writing the element inserts it at the position |
| RegexVectorSet.VectorSet.Insert | CORE/UTIL/regex.cpp:37-47 | the set gains exactly the element, stays sorted and duplicate-free, and the byte-sized count does not overflow |
| RegexVectorSet.VectorSet.Swap | CORE/UTIL/regex.cpp:53-56 | the two buffers and counts change places |
| RegexNfa.LiveTerminals | CORE/UTIL/regex.cpp:643-713 | after every token the terminals of all live fragments are pairwise disjoint and duplicate-free, each has exactly one open exit, and no other state has an open one |
| RegexNfa.MachineHasNoOpenExit | CORE/UTIL/regex.cpp:714-717 | in a finished machine every exit but those of MATCH and the unused second ones is a state |
| RegexNfa.ConnectedToNext | CORE/UTIL/regex.cpp:683-690 | connecting a fragment to the entry of the next makes their concatenation |
| RegexNfa.ConnectedToSplit | CORE/UTIL/regex.cpp:651-665 | connecting a fragment to a SPLIT state that leads back to its entry makes the loop |
| RegexNfa.SplitBetween | CORE/UTIL/regex.cpp:673-682 | a SPLIT state leading to two fragments makes their alternation |
| RegexNfa.Nfa.NewState | CORE/UTIL/regex.cpp:744-747 | the state goes to the end and its index is returned |
| RegexNfa.Nfa.Connect | CORE/UTIL/regex.cpp:723-737 | exactly the open exits of the listed terminals are pointed at the state, which becomes the only terminal |
| RegexNfa.Nfa.BuildPlus | CORE/UTIL/regex.cpp:651-658 | the topmost fragment becomes the open fragment of its plus loop, the others stay |
| RegexNfa.Nfa.BuildStar | CORE/UTIL/regex.cpp:659-665 | the topmost fragment becomes the open fragment of its star loop, the others stay |
| RegexNfa.Nfa.BuildOption | CORE/UTIL/regex.cpp:666-672 | the topmost fragment becomes the open fragment of its option, the others stay |
| RegexNfa.Nfa.BuildAlternative | CORE/UTIL/regex.cpp:673-682 | the two topmost fragments become that of their alternation |
| RegexNfa.Nfa.BuildConcat | CORE/UTIL/regex.cpp:683-690 | the two topmost fragments become that of their concatenation |
| RegexNfa.Nfa.BuildLiteral | CORE/UTIL/regex.cpp:693-712 | a new one-state fragment for the token goes on the stack |
| RegexNfa.Nfa.BuildToken | CORE/UTIL/regex.cpp:646-713 | one token does to the fragments what it does to the operands of the postfix program; what the operands then accept is said by TokenLaw, SequenceLaw, AlternativeLaw and QuantifierLaw |
| RegexNfa.Nfa.Build | CORE/UTIL/regex.cpp:643-718 | a postfix program for one operand gives that operand's machine, and the result says whether it has fewer than 255 states |
| RegexNfa.Nfa.AddSplit | CORE/UTIL/regex.cpp:359-372 | from any state whose SPLIT edges do not go on for ever, exactly the states reached through them that do not split are added |
| RegexNfa.Nfa.IsMatch | CORE/UTIL/regex.cpp:377-387 | says whether a MATCH state is in the set |
| RegexNfa.Nfa.Advance | CORE/UTIL/regex.cpp:291-335 | from the states after w the inner loop computes the states after w and one more character, as long as following SPLIT edges ends from each state's exit |
| RegexNfa.Nfa.Consume | CORE/UTIL/regex.cpp:291-342 | after the swap the current buffer holds the states after the character, the other is empty, and a match is membership of what was read |
| RegexNfa.Nfa.Begin | CORE/UTIL/regex.cpp:271-281 | the buffers a scan begins with hold the states reached from the start, and nothing |
| RegexNfa.Nfa.Scan | CORE/UTIL/regex.cpp:271-354 | whenever following SPLIT edges ends wherever the scan gets to: the end of the first maximal run of consecutive accepted prefix lengths from 1 on, or 0 if there is none |
| RegexNfa.AllScannable | CORE/UTIL/regex.cpp:359-372 | without nullable loops every input can be scanned |
| RegexNfa.UnreachedLoop | CORE/UTIL/regex.cpp:288-372 | a nullable loop that the input does not reach does no harm: a(b*)* on x |
| RegexNfa.ScanEndUnique | CORE/UTIL/regex.cpp:340-353 | the language and the input determine the end of a scan |
| RegexNfa.NoStatesNoMore | CORE/UTIL/regex.cpp:288-290 | when no state is left no longer prefix is in the language |
| RegexPattern.RegExPattern.Build | CORE/UTIL/regex.cpp:230-251 | from the text on: the error of the escaping pass, or for its tokens NONE with the machine of the meaning, MISSING_OPERAND, or one of the two outcomes that do not return, as the reference parser decides; an error leaves a machine without states |
| RegexPattern.RegExPattern.Scan | CORE/UTIL/regex.cpp:256-263 | 0 without a machine, otherwise the end of the scan |
| RegexPattern.RegExPattern.Match | CORE/UTIL/regex.cpp:392-396 | true exactly when there is a machine and the input is empty or the first run of accepted prefixes ends at its end |
| RegexPattern.WellFormedBuilds | CORE/UTIL/regex.cpp:230-251 | every well-formed pattern, braces included, builds the machine of its own meaning, size permitting |
| RegexPattern.WrittenBuilds | CORE/UTIL/regex.cpp:230-251 | so does the text a well-formed pattern is written as, if its tokens can come out of the escaping pass |
| RegexPattern.BuildsOnlyWellFormed | CORE/UTIL/regex.cpp:230-251 | a machine is built if and only if the expanded tokens print a well-formed pattern |
| RegexPattern.MatchIsMembershipIff | CORE/UTIL/regex.cpp:392-396 | for every tree and input a match is membership if and only if, on the empty input, the pattern accepts it, and on any other, being in the language comes with accepted prefixes without a gap |
| RegexPattern.MatchIsMemberWithoutGap | CORE/UTIL/regex.cpp:392-396 | on a non-empty input a match is membership together with the absence of gaps between accepted prefixes |
| RegexPattern.MatchMissesMember | CORE/UTIL/regex.cpp:340-347 | the pattern of a or aab accepts aab but its scan stops after the first character |
| RegexLaws.LoopsAreToldApart | CORE/UTIL/regex.cpp:651-665 | of the built machines, that of the text a+b does not match b and that of a*b does; both match ab |
| RegexLaws.ShortestMatches | CORE/UTIL/regex.cpp:340-396 | an input that is in the language and has no shorter non-empty prefix there is matched, and only if it is in the language |
| RegexPattern.EmptyMatchesAll | CORE/UTIL/regex.cpp:392-396 | the empty input matches the pattern a, which does not accept it |
| RegexPattern.TrailingAlternativeNeverReturns | CORE/UTIL/regex.cpp:590-638 | the tokens of a| lead into the loop that counts down from zero |
| DistanceField.StepsDist | TOOLS/bmfontutil/distancefield.cpp:52-57 | the squared length of k steps is k*k*(1/w^2 + 1/h^2), the number compared with 2 |
| DistanceField.CompareIsBetter | TOOLS/bmfontutil/distancefield.cpp:47-64 | comparing squared lengths of points is comparing step counts, and an unset neighbour never wins |
| DistanceField.CoveredIsDistance | TOOLS/bmfontutil/distancefield.cpp:69-100 | a sound grid whose cells know all seeds holds the nearest-seed distances |
| DistanceField.AllExact | TOOLS/bmfontutil/distancefield.cpp:69-100 | after both sweeps every cell of the array holds its distance |
| DistanceField.ForwardStep | TOOLS/bmfontutil/distancefield.cpp:71-78 | one cell of the first pass learns of the seeds above it and to its left |
| DistanceField.BackwardStep | TOOLS/bmfontutil/distancefield.cpp:86-93 | one cell of the second pass learns of the seeds below it |
| DistanceField.DistanceGrid.Compare | TOOLS/bmfontutil/distancefield.cpp:47-64 | the nearer of a point and the stepped value of the clamped neighbour |
| DistanceField.DistanceGrid.Relax | TOOLS/bmfontutil/distancefield.cpp:72-77 | one cell is compared with the listed neighbours in order and written back; all others stay |
| DistanceField.DistanceGrid.ForwardRow | TOOLS/bmfontutil/distancefield.cpp:71-83 | afterwards the row knows the seeds above and in it |
| DistanceField.DistanceGrid.BackwardRow | TOOLS/bmfontutil/distancefield.cpp:86-98 | afterwards the row knows the seeds below as well |
| DistanceField.DistanceGrid.FirstSweep | TOOLS/bmfontutil/distancefield.cpp:70-84 | after the pass down every cell knows the seeds above it and in its row |
| DistanceField.DistanceGrid.SecondSweep | TOOLS/bmfontutil/distancefield.cpp:85-99 | after the pass up every cell knows all seeds |
| DistanceField.DistanceGrid.ComputeSdf | TOOLS/bmfontutil/distancefield.cpp:69-100 | every cell ends as k steps, k the chessboard distance to the nearest seed of the whole grid, if k steps have squared length below 2, and as (1,1) otherwise |
| DistanceField.DistanceGrid.FromRgba | TOOLS/bmfontutil/distancefield.cpp:18-33 | seeds of the inside grid are the pixels with alpha below 128, of the outside grid the others |
| DistanceField.PixelsByAlpha | TOOLS/bmfontutil/distancefield.cpp:25-31 | a pixel is opaque when the last of its four bytes is 128 or more, and transparent otherwise |
| DistanceField.DistanceGrid.ComputeGrids | TOOLS/bmfontutil/distancefield.cpp:105-108 | the inside grid holds distances to the nearest transparent pixel, the outside grid to the nearest opaque one |
| Events.Binder.Unbind | EXTERN_LIB/srutil/event/event.hpp:24-29 | the neighbours are linked to each other and the node to itself |
| Events.Binder.AttachAfter | EXTERN_LIB/srutil/event/event.hpp:37-43 | the node is linked in between the given one and its successor; attached to itself, or to its predecessor, it points at itself |
| Events.EventSource.Release | EXTERN_LIB/srutil/event/event.hpp:24-29 | a binder leaves its list, or nothing happens when it is in none |
| Events.RunWithout | EXTERN_LIB/srutil/event/event.hpp:69-72 | a bookmark never changes what callbacks do to the rest of the list, however deep they emit |
| Events.WalkCallsReached | EXTERN_LIB/srutil/event/event.hpp:61-77 | one emit calls, once each and nobody else, the binders attached at its start that have a sink and are not bound or unbound before their turn; none bound meanwhile is called |
| Events.MarkAfterReply | EXTERN_LIB/srutil/event/event.hpp:69-72 | after a callback the bookmark still separates what is left of the list before and after it |
| Events.EventSource.AttachAt | EXTERN_LIB/srutil/event/event.hpp:37-43 | attaching after position k inserts the node there and keeps the ring |
| Events.EventSource.Detach | EXTERN_LIB/srutil/event/event.hpp:24-29 | unbinding removes the node from the ring, or leaves the ring alone when it is in none |
| Events.EventSource.UnbindBinder | EXTERN_LIB/srutil/event/event.hpp:24-29 | a binder leaves the list and the rest keeps its order |
| Events.EventSource.BindBinder | EXTERN_LIB/srutil/event/event.hpp:84-91 | a binder leaves its place and goes to the front with its new sink |
| Events.EventSource.SourceBind | EXTERN_LIB/srutil/event/event.hpp:55-59 | a binder outside the list goes to its front with its new sink; for one in the list, and only then, the links no longer agree |
| Events.BindTwice | EXTERN_LIB/srutil/event/event.hpp:55-59 | a binder bound twice through the source leaves links that do not agree |
| Events.EventSource.PlaceMark | EXTERN_LIB/srutil/event/event.hpp:69-70 | a new bookmark stands right after the binder about to be called |
| Events.EventSource.RemoveMark | EXTERN_LIB/srutil/event/event.hpp:69-73 | the bookmark goes and nothing else changes |
| Events.EventSource.Invoke | EXTERN_LIB/srutil/event/event.hpp:67-73 | around one callback the visible list changes only as the callback says, and the walk goes on from the first node left of the rest |
| Events.EventSource.EmitPlan | EXTERN_LIB/srutil/event/event.hpp:61-77 | an emit terminates, leaves a well-formed ring without its bookmarks, and calls and leaves exactly what the snapshot semantics says, for every behaviour of the callbacks |
| Events.EventSource.EmitCalls | EXTERN_LIB/srutil/event/event.hpp:61-77 | an emit calls the binders of its list that have a sink and are not bound or unbound before their turn, once each and nobody else |
| EventLaws.SilentEmit | EXTERN_LIB/srutil/event/event.hpp:61-77 | an emit inside a callback, or any, whose callbacks do nothing adds to the trace exactly the binders of the list that have a sink, once each in list order, and changes nothing else |
| EventLaws.NestedEmit | EXTERN_LIB/srutil/event/event.hpp:61-77 | every emit by a callback, at any depth, adds to the trace the binders reached from the list at its start, once each in list order, each followed by what its own callback adds |
| EventLaws.EmitWithinEmit | EXTERN_LIB/srutil/event/event.hpp:61-77 | with binders a and b, the first callback emitting once more: the trace gains a, a, b, b |
| EventLaws.UnboundIsSkipped | EXTERN_LIB/srutil/event/event.hpp:61-77 | a binder that the first callback unbinds is not called and not in the list afterwards |
| EventLaws.BoundHasToWait | EXTERN_LIB/srutil/event/event.hpp:61-91 | a binder that the first callback binds is in front from then on and not called by this emit |
| EventLaws.UnbindLaw | EXTERN_LIB/srutil/event/event.hpp:24-29 | unbinding takes out the binder alone and keeps the order, the sinks and the trace |
| EventLaws.BindLaw | EXTERN_LIB/srutil/event/event.hpp:84-91 | binding puts the binder in front with its sink and keeps the order of the others, their sinks and the trace |
| Events.EventSource.WalkList | EXTERN_LIB/srutil/event/event.hpp:64-76 | the loop over the pointers is the walk over the snapshot |
| Varint.VarUIntRoundTrip | CORE/BASE/serializer_podtypes.h:98-125 | decoding an encoding followed by anything gives the value and leaves the rest, for every u64 |
| Varint.AtMostTenBytes | CORE/BASE/serializer_podtypes.h:98-111 | an encoding has at most ten bytes |
| Varint.VarUIntLength | CORE/BASE/serializer_podtypes.h:98-111 | an encoding has at most k bytes if and only if the value is below 128^k |
| WireLaws.VarintExamples | CORE/BASE/serializer_podtypes.h:98-111 | the bytes of 127, 128, 150 and 300 |
| Varint.EncodingIsMinimal | CORE/BASE/serializer_podtypes.h:98-125 | no byte string from which the 64-bit decoder reads a value is shorter than the encoding of that value |
| Varint.PrefixFree | CORE/BASE/serializer_podtypes.h:98-111 | no encoding is a prefix of another value's |
| Varint.VarIntRoundTrip | CORE/BASE/serializer_podtypes.h:127-137 | decoding a signed encoding followed by anything gives the value and leaves the rest, for every s64 |
| WireOutput.OutSink.Put | CORE/BASE/serializer_podtypes.h:49-58 | a write of nonzero length that is cut short sets the fail flag, and only that does |
| WireOutput.OutSink.PutVarUInt | CORE/BASE/serializer_podtypes.h:98-111 | the loop fills at most ten of the twelve bytes with exactly the encoding and writes them |
| WireInput.InSink.Get | CORE/BASE/serializer_podtypes.h:61-70 | what is there is read, up to n bytes, and the fail flag is set if and only if that is too few |
| WireInput.InSink.GetVarUInt | CORE/BASE/serializer_podtypes.h:113-125 | the do-while loop reads exactly one varint, modulo 2^64, or sets the fail flag at the end of the input and leaves nothing |
| WireInput.InSink.GetFixed | CORE/BASE/serializer_podtypes.h:60-69 | n bytes, least significant first, or the fail flag and nothing left |
| Varint.ZigZagBijective | CORE/TYPES/varint_types.h:45-51 | the two mappings undo each other and map s64 onto u64 |
| Varint.DecodeUndoesEncode | CORE/TYPES/varint_types.h:45-51 | on 64-bit words decode_zigzag undoes encode_zigzag |
| Varint.EncodeUndoesDecode | CORE/TYPES/varint_types.h:45-51 | on 64-bit words encode_zigzag undoes decode_zigzag |
| Varint.EncodeWordIsZigZag | CORE/TYPES/varint_types.h:45-47 | shift and exclusive or on the 64-bit word are the arithmetic mapping of the number it stands for |
| Varint.DecodeWordIsUnZigZag | CORE/TYPES/varint_types.h:49-51 | the bit form of decode_zigzag is the arithmetic one on every 64-bit word |
| Wire.ScalarRoundTrip | TOOLS/protoc/proto_printer_header.cpp:489-515 | every number in the range of its field type is read back and nothing after it is touched |
| Wire.PassSkips | TOOLS/protoc/proto_printer_header.cpp:677-697 | an unknown record of wire type 0, 1 or 5 is skipped exactly |
| Wire.DecodeOne | TOOLS/protoc/proto_printer_header.cpp:558-674 | one turn of the loop reads one record and does what it says to the message |
| Wire.EncodeIsItems | TOOLS/protoc/proto_printer_header.cpp:467-533 | the encoder writes the records of the message in descriptor order |
| Wire.ValueTakesBack | TOOLS/protoc/proto_printer_header.cpp:574-666 | every value that decodes is read back whatever follows it |
| Wire.NestedTakesBack | TOOLS/protoc/proto_printer_header.cpp:656-666 | the range over a nested message ends exactly where its measured size says, and what it decodes to is what its bytes decode to on their own |
| Wire.ColumnOfApplied | TOOLS/protoc/proto_printer_header.cpp:558-674 | what a field ends up with depends on its own records only, in their order |
| Wire.ItemsRebuild | TOOLS/protoc/proto_printer_header.cpp:467-674 | storing the records of a message into a new builder gives the message with its nested ones as they decode |
| Wire.RoundTripIff | TOOLS/protoc/proto_printer_header.cpp:457-703 | the decoder gives the canonical form of an encoded message if and only if everything written, at every depth, is in fields with numbers below 2^29 |
| Wire.DecodeTyped | TOOLS/protoc/proto_printer_header.cpp:558-703 | records of fields below 2^29 decode to what storing them gives, or not at all if a nested message among them does not decode |
| Wire.WideUntouched | TOOLS/protoc/proto_printer_header.cpp:558-674 | nothing is ever stored in a field with a number from 2^29 on |
| Wire.WideGoesAstray | TOOLS/protoc/proto_printer_header.cpp:475-475 | a number of a field 2^29 above another of its type comes back in that other one |
| Wire.MessageRoundTrip | TOOLS/protoc/proto_printer_header.cpp:457-703 | for every accepted descriptor and every message of it whose written fields have numbers below 2^29, the decoder run on the encoder's bytes consumes them all and returns the canonical form of the message |
| Wire.CanonicalIff | TOOLS/protoc/proto_printer_header.cpp:480-484 | the canonical form is the message itself if and only if, at every depth, no singular float holds the bits 0x80000000 and no singular double the bits 0x8000000000000000 |
| Wire.ComesBackIff | TOOLS/protoc/proto_printer_header.cpp:457-703 | for every typed message, decoding the encoding gives that very message if and only if, at every depth, no singular float holds the bits 0x80000000, no singular double the bits 0x8000000000000000, and fields with numbers from 2^29 on hold what a new builder has |
| Wire.SameMessageIff | TOOLS/protoc/proto_printer_header.cpp:457-703 | for every typed message that is carried, the same if and only if no singular float or double holds a negative zero |
| WireLaws.NothingWritten | TOOLS/protoc/proto_printer_header.cpp:480-486 | a singular field writes nothing if and only if it holds zero, of either sign, or the empty string |
| WireLaws.NewBuilder | TOOLS/protoc/proto_printer_header.cpp:275-300 | a new builder holds zeros, empty strings, and nothing in repeated and message fields |
| WireLaws.FourByteRecord | TOOLS/protoc/proto_printer_header.cpp:470-515 | a record of four-byte numbers: a tag that says so and the two's complement, lowest byte first |
| WireLaws.EightByteRecord | TOOLS/protoc/proto_printer_header.cpp:470-515 | a record of eight-byte numbers likewise |
| WireLaws.VarintRecord | TOOLS/protoc/proto_printer_header.cpp:470-515 | numbers in groups of seven bits, unsigned ones and enums as they are, signed ones and flags zigzagged |
| WireLaws.DelimitedRecord | TOOLS/protoc/proto_printer_header.cpp:516-528 | strings and nested messages: a tag that says so, the length, the bytes |
| WireLaws.OwnRecordSkipped | TOOLS/protoc/proto_printer_header.cpp:677-697 | a reader that lacks a number field passes over its record and over nothing else |
| WireLaws.StrangeRecord | TOOLS/protoc/proto_printer_header.cpp:677-697 | of an unknown record with a wire type no field has only the tag is passed over |
| WireLaws.TwoRecords | TOOLS/protoc/proto_printer_header.cpp:558-674 | of two records of a singular field the later one counts; a repeated field gets both values in order |
| WireLaws.NumbersAreCut | TOOLS/protoc/proto_printer_header.cpp:574-638 | a number too wide for its field keeps its low 32 bits, and any but zero makes a flag true |
| WireLaws.TextTaken | TOOLS/protoc/proto_printer_header.cpp:639-655 | a string is taken if and only if all its bytes are there and its size is not above the limit |
| Wire.NegativeZeroIsLost | TOOLS/protoc/proto_printer_header.cpp:480-484 | a message whose one float field is negative zero comes back with positive zero |
| Wire.OrderOfRecords | TOOLS/protoc/proto_printer_header.cpp:558-703 | two record sequences with the same values for every field number, in the same order per field, decode to the same message |
| Wire.AnyOrderRoundTrip | TOOLS/protoc/proto_printer_header.cpp:558-703 | any arrangement of a message's records that keeps each field's order, with unknown records of wire types 0, 1 and 5 among them, decodes to the message |
| Wire.LengthDelimitedSkip | TOOLS/protoc/proto_printer_header.cpp:687-692 | skipping an unknown length-delimited record ends after it if and only if it is empty, or has odd length and is the last |
| Wire.TwoBytesMissed | TOOLS/protoc/proto_printer_header.cpp:687-692 | of two bytes of an unknown field the second is read as a tag |
| WireOutput.OutSink.PutScalar | TOOLS/protoc/proto_printer_header.cpp:489-515 | a number is written as its field type says, and whether it fits is looked at |
| WireOutput.OutSink.PutValue | TOOLS/protoc/proto_printer_header.cpp:516-528 | a nested message is sized with a counting sink first and the size is that of the bytes that follow; all but the string it ends with is looked at |
| WireOutput.OutSink.PutColumn | TOOLS/protoc/proto_printer_header.cpp:470-533 | all values of a repeated field, and the non-default value of a singular one, each after its tag; all but the string at the end is looked at |
| WireOutput.OutSink.PutMessage | TOOLS/protoc/proto_printer_header.cpp:457-538 | the emitted output operator offers the sink exactly the encoding of the message, and the flag tells of all but the string it ends with |
| WireOutput.UnlookedIsLastString | TOOLS/protoc/proto_printer_header.cpp:516-528 | what the flag does not tell of is the string that the last record holds or ends with |
| WireOutput.WriteInto | TOOLS/protoc/proto_printer_header.cpp:457-538 | a new sink over a blob fails if and only if the encoding without the string it ends with is longer than the blob; what fits is written either way |
| WireOutput.CutSilently | TOOLS/protoc/proto_printer_header.cpp:516-523 | a message of one string does not fit into three bytes and does not fail |
| WireInput.InSink.GetScalar | TOOLS/protoc/proto_printer_header.cpp:574-638 | a number is read and narrowed as its field type says |
| WireInput.InSink.GetText | TOOLS/protoc/proto_printer_header.cpp:639-655 | a length and that many bytes, beginning with those that are there; a string that is cut off sets no flag, only a missing or too large size does |
| WireInput.InSink.GetNested | TOOLS/protoc/proto_printer_header.cpp:656-666 | a message read through a range, after which the parent stands right behind it; what goes wrong in the range leaves the flag of the parent alone |
| WireInput.InSink.PassValue | TOOLS/protoc/proto_printer_header.cpp:677-697 | the value of an unknown field is skipped by its wire type; only a missing varint sets the flag |
| WireInput.InSink.GetRecord | TOOLS/protoc/proto_printer_header.cpp:558-674 | one turn of the emitted loop, with what is left and whether the flag is set on any input |
| WireInput.InSink.GetMessage | TOOLS/protoc/proto_printer_header.cpp:543-703 | the emitted input operator on a new builder returns what the decoder function returns when that accepts, uses up exactly the range and advances every parent by as much; on any input the flag and the bytes left are those MessageEnding gives |
| WireTruncated.AcceptedEnds | TOOLS/protoc/proto_printer_header.cpp:543-703 | whatever the decoder function accepts is read to its end with the flag clear |
| WireTruncated.CutRecords | TOOLS/protoc/proto_printer_header.cpp:558-697 | records cut off anywhere, known or unknown, are used up, and the flag is set if and only if the cut lies in the tag, the number or the size of one of them |
| WireTruncated.CutMessage | TOOLS/protoc/proto_printer_header.cpp:543-703 | so for the first k bytes of every message: a cut in a string, in a nested message or between records goes unnoticed |
| WireTruncated.ValueCuts | TOOLS/protoc/proto_printer_header.cpp:574-666 | wherever the bytes of a value end, the flag tells whether its number or its size is incomplete, and nothing is left |
| WireTruncated.PassCuts | TOOLS/protoc/proto_printer_header.cpp:677-697 | a cut in the value of an unknown field is noticed in a varint only |
| WireTruncated.CutStringGoesUnnoticed | TOOLS/protoc/proto_printer_header.cpp:639-655 | two of five bytes of a string: no message for the decoder function, no flag in the code |
| WireInput.SendAndReceive | TOOLS/protoc/proto_printer_header.cpp:457-703 | written to a blob of the measured size and read back, a message arrives in canonical form and nothing fails |
| WireInput.SendAndCut | TOOLS/protoc/proto_printer_header.cpp:543-703 | when only the first k bytes arrive the reader fails if and only if they end in a tag, a number or a size |
| WireOutput.OutSink.Write | CORE/BASE/serializer_basesinks.h:19-91 | all bytes are counted; a blob takes what fits, in order, and the result says whether all did |
| WireOutput.SizeThenWrite | CORE/BASE/serializer_basesinks.h:15-121 | a blob of the size the counting sink gives takes the whole encoding and nothing fails |
| WireInput.SeekIsSkip | CORE/BASE/serializer_basesinks.h:45-77 | seeking through a chain of capped ranges skips as much of what can be read |
| WireInput.SeekTwice | CORE/BASE/serializer_basesinks.h:61-77 | two seeks are one seek of the sum, on the range and on all its parents |
| WireInput.RangeUsed | CORE/BASE/serializer_basesinks.h:45-77 | what is read through a range is used up on its parent, and all of the range when it is empty |
| WireInput.RangeLeft | CORE/BASE/serializer_basesinks.h:45-77 | after reading through a range its parent has left what the range has, and what lies behind the range |
| WireInput.InSink.Read | CORE/BASE/serializer_basesinks.h:55-140 | the bytes that are there up to the wanted number, on a blob or through capped ranges |
| WireInput.InSink.SeekBy | CORE/BASE/serializer_basesinks.h:61-148 | a seek is cut off at the end of the blob and capped by every range |
| ProtoDef.FieldBack | CORE/TYPES/protobuf.h:220-238 | a field descriptor followed by anything comes back if and only if its strings are short enough |
| ProtoDef.EnumBack | CORE/TYPES/protobuf.h:240-257 | an enumeration followed by anything comes back if and only if its strings are short enough |
| ProtoDef.MessageBack | CORE/TYPES/protobuf.h:260-308 | a message descriptor, nested to any depth and followed by anything, comes back and leaves what follows; with an overlong string it comes back different or not at all |
| ProtoDef.DescriptorRoundTrip | CORE/TYPES/protobuf.h:260-308 | the round trip of a descriptor before any suffix holds if and only if all its strings are below the reader's limit |
| ProtoDef.LongNameIsLost | CORE/TYPES/protobuf.h:260-308 | a descriptor with a name of 2^32 - 1 bytes comes back different or not at all |
| ProtoLaws.FieldLayout | CORE/TYPES/protobuf.h:220-227 | the bytes of a field: name, type name, the number of the type and its own in four bytes each, the flag |
| ProtoLaws.EnumLayout | CORE/TYPES/protobuf.h:240-247 | the bytes of an enumeration: its name, how many values it has in eight bytes, the values |
| ProtoLaws.MessageLayout | CORE/TYPES/protobuf.h:260-280 | the bytes of a message: name, package, then enumerations, fields and nested messages in this order, each list after its size in eight bytes |
| ProtoLaws.ListLayout | CORE/TYPES/protobuf.h:220-280 | the elements of the lists follow one another in order |
| ProtoDefSinks.PutField | CORE/TYPES/protobuf.h:220-227 | all bytes of the field descriptor are written, or the sink has failed because they do not fit |
| ProtoDefSinks.PutEnum | CORE/TYPES/protobuf.h:240-247 | all bytes of the enumeration are written, or the sink has failed because they do not fit |
| ProtoDefSinks.PutMessage | CORE/TYPES/protobuf.h:260-280 | all bytes of the descriptor are written, nested ones included, or the sink has failed because they do not fit |
| ProtoDefSinks.GetField | CORE/TYPES/protobuf.h:229-238 | the field reader consumes and returns what the reading function says |
| ProtoDefSinks.GetEnum | CORE/TYPES/protobuf.h:249-257 | the enumeration reader consumes and returns what the reading function says |
| ProtoDefSinks.GetMessage | CORE/TYPES/protobuf.h:282-308 | the descriptor reader, with its counted loops and recursion, consumes and returns what the reading function says |
| ProtoDefSinks.SendAndReceive | CORE/TYPES/protobuf.h:260-308 | a descriptor written to a blob of the size the counting sink gave comes back the same, and that size is the number of its bytes |
| ProtoDef.TextBack | CORE/BASE/serializer_strings.h:11-40 | a string is read back if and only if it is shorter than 2^32 - 1 bytes |
| ProtoDefSinks.PutText | CORE/BASE/serializer_strings.h:11-21 | all of the string is written, or the sink has failed because it does not fit |
| ProtoDefSinks.GetText | CORE/BASE/serializer_strings.h:23-39 | the string reader, with its unread overlong string |
| ProtoValidator.VerifyFields | TOOLS/protoc/proto_validator.cpp:42-58 | accepted if and only if numbers are positive and neither numbers nor names repeat |
| ProtoValidator.VerifyEnums | TOOLS/protoc/proto_validator.cpp:64-91 | accepted if and only if names do not repeat and the values of each pass the checks of fields |
| ProtoValidator.VerifyMessage | TOOLS/protoc/proto_validator.cpp:34-109 | accepted if and only if the package is set, fields and enums are valid, and child messages have distinct names and are valid themselves, at every depth |
| ProtoValidator.VerifyService | TOOLS/protoc/proto_validator.cpp:17-29 | accepted if and only if no function name repeats |
| ProtoValidator.VerifyFile | TOOLS/protoc/proto_validator.cpp:114-148 | accepted if and only if the package is set, all messages and services are valid and no name is used twice among both |
| ProtoTypes.CollectDefines | TOOLS/protoc/main.cpp:272-290 | the recursion pushes the qualified name of every message and enum at every depth |
| ProtoTypes.FindMatch | TOOLS/protoc/main.cpp:127-144 | the first name in which the ending occurs first at its very end |
| ProtoTypes.FixFields | TOOLS/protoc/main.cpp:171-195 | fields are resolved up to the first that has no match, and accepted if all have one |
| ProtoTypes.FixMessage | TOOLS/protoc/main.cpp:161-196 | nested messages are resolved first and the result of that does not matter |
| ProtoTypes.FixFile | TOOLS/protoc/main.cpp:295-320 | a file is let through if and only if all fields of its outermost messages resolve among its own names and those of its imports |
| ProtoTypes.FieldsHaveTypes | TOOLS/protoc/main.cpp:171-195 | every message-typed field of an outermost message of a file let through names a type of the file or of an import |
| ProtoTypes.TypeFound | TOOLS/protoc/main.cpp:127-196 | a field of type I in package p gets the type ::p::I, with the fields of that message |
| ProtoLaws.EnumFound | TOOLS/protoc/main.cpp:171-193 | a field whose type is an enumeration E of message O in package p becomes an enum field of type ::p::O::E |
| ProtoTypes.NestedGoesUnchecked | TOOLS/protoc/main.cpp:165-169 | a nested message with an unknown type gets through |
| ProtoTypes.SelfNameMissed | TOOLS/protoc/main.cpp:127-144 | message a of package a is not found as a type |
| ProtoTypes.AcceptedSchema | TOOLS/protoc/proto_validator.cpp:34-109 | every type of accepted messages, at every depth, has positive and distinct field numbers |
| ProtoTypes.AcceptedRoundTrip | TOOLS/protoc/proto_validator.cpp:34-109 | a message of any type of accepted files, under the names the compiler gives types in fields, survives the wire with its nested messages if and only if what is written is in fields with numbers below 2^29 |
| VfsPath.DirAndFile | CORE/VFS/path.cpp:74-115 | directory and file part put together are the path, and the file part has no separator |
| VfsPath.StripUndoesPlus | CORE/VFS/path.cpp:60-137 | stripping a directory from a path appended to it gives the path back, exactly unless the directory is the dot directory, which appending drops |
| VfsPath.AppendsToDirectories | CORE/VFS/path.cpp:60-71 | nothing can be appended to a path that does not end in a separator, and the dot directory in front is dropped |
| VfsPath.CleanPath | CORE/VFS/path.cpp:15-28 | every backslash becomes a slash and nothing else changes |
| VfsPath.Walk | CORE/VFS/path.cpp:155-194 | the walk from the right with its skip counter gives the joined left-to-right normal form, or fails exactly when that does not exist |
| VfsPath.Resolve | CORE/VFS/path.cpp:142-201 | the whole of resolve, with its shortcut |
| VfsPath.FailsIffClimbsOut | CORE/VFS/path.cpp:167-194 | there is no normal form if and only if some directory prefix has more parent steps than names; otherwise it has as many names as their difference |
| VfsPath.NormalHasNames | CORE/VFS/path.cpp:142-201 | the normal form holds names of the path only, and neither of the dot components |
| VfsPath.DotsCanBeDropped | CORE/VFS/path.cpp:167-194 | wherever they stand a dot component, or a name with the parent step behind it, can be dropped; a parent step at the beginning leads nowhere |
| VfsPath.ComponentsJoin | CORE/VFS/path.cpp:156-165 | the components of a directory text put together are the text without a leading separator |
| VfsPath.ResolvedIsNormal | CORE/VFS/path.cpp:142-201 | for every relative path the result is the normal form and the file, or the empty path if there is none; the shortcut changes nothing |
| VfsPath.ResolveIdempotent | CORE/VFS/path.cpp:142-201 | resolving twice is resolving once if and only if it is not so that the path has a dot before a separator and the normal form of its directory begins with an empty name and has a name that ends in a dot |
| VfsPath.AbsoluteIff | CORE/VFS/path.cpp:142-201 | the result of any path is absolute if and only if the path is absolute and has no dot before a separator, or has one and the normal form of its directory begins with an empty name |
| VfsPath.ResolvedAfterLead | CORE/VFS/path.cpp:156-194 | an absolute path with a dot before a separator resolves to the normal form of its components and its file, without the leading separator |
| VfsPath.LeadIsLost | CORE/VFS/path.cpp:156-194 | in particular plain names of which one ends in a dot come back without the leading separator |
| VfsPath.LosesTwoSeparators | CORE/VFS/path.cpp:142-201 | //a./b becomes /a./b and that becomes a./b |
| VfsPath.AbsoluteIsLost | CORE/VFS/path.cpp:142-201 | /./a becomes a, /a/../b becomes b, and the relative path a/..//b becomes /b |
| VfsPath.RelativeIdempotent | CORE/VFS/path.cpp:142-201 | for relative paths without empty components resolving is idempotent |
| Crc32.TableIsByteStep | CORE/HASH/crc32.cpp:6-49 | every entry of the table is eight single steps of the reflected division by 0xEDB88320 on its index |
| Crc32.ByteStepXor | CORE/HASH/crc32.cpp:57-69 | eight steps are linear over exclusive or |
| Crc32.TableStep | CORE/HASH/crc32.cpp:60-66 | one turn of the loop is eight single steps on the register with the byte added |
| Crc32.CrcOfBuffer | CORE/HASH/crc32.cpp:57-69 | the table-driven loop computes the bit-by-bit checksum of the buffer |
| Crc32.Signature.Append | CORE/HASH/crc32.cpp:97-103 | appending a byte is the register after one more byte |
| Crc32.CrcByByte | CORE/HASH/crc32.cpp:97-136 | starting, appending byte by byte and finalizing gives the checksum of the one-shot form |
| Crc32.CiCrcOfBuffer | CORE/HASH/crc32.cpp:74-92 | the case-insensitive form is the checksum of the buffer with capitals and backslashes |
| Crc32.RunIsSteps | CORE/HASH/crc32.cpp:57-69 | up to four bytes act on the register as one word |
| Crc32.BurstDetected | CORE/HASH/crc32.cpp:57-69 | two buffers of equal length that differ only within four consecutive bytes have different checksums |
| Crc32.CaseIgnored | CORE/HASH/crc32.cpp:74-92 | buffers that differ only in the case of letters and the direction of slashes have equal case-insensitive checksums, and up to four bytes only these; without small letters and forward slashes it is the plain checksum |
| Crc32.CheckValue | CORE/HASH/crc32.cpp:57-69 | the checksum of the digits 1 to 9 is 0xCBF43926 |
| Escape.EscapeChar | CORE/UTIL/stringutil.cpp:159-191 | one character as the switch writes it: all printable, one to four of them |
| Escape.Escape | CORE/UTIL/stringutil.cpp:154-195 | the loop escapes character by character |
| Escape.UnescapeChar | CORE/UTIL/stringutil.cpp:109-140 | what follows a backslash is decoded: a letter, three digits that do not run past the end, or itself with the backslash |
| Escape.Unescape | CORE/UTIL/stringutil.cpp:98-149 | the loop decodes the whole string; a backslash at the end is dropped |
| Escape.UnescapeUndoesEscape | CORE/UTIL/stringutil.cpp:98-195 | unescaping an escaped string gives it back, for every string of bytes |
| Escape.EscapedIsPrintable | CORE/UTIL/stringutil.cpp:154-195 | the escaped form is printable and between one and four times as long |
| Escape.LooksLike | CORE/UTIL/stringutil.cpp:159-191 | newline, carriage return, tab, quote and backslash are written with their letters, other printable characters as they are, the rest with three decimal digits |
| Escape.EscapedConcat | CORE/UTIL/stringutil.cpp:154-195 | text is escaped piece by piece |
| Escape.ReadAfterBackslash | CORE/UTIL/stringutil.cpp:109-140 | three digits give a character modulo 256, an unknown escape stays with its backslash, a backslash at the end is dropped |
| StateMachines.StepKeeps | CORE/UTIL/state_machine.cpp:70-184 | every operation keeps the discipline: one active state at most, which is the current one, entered before it is updated and left before another is entered |
| StateMachines.RunsAreDisciplined | CORE/UTIL/state_machine.cpp:70-184 | every run of additions, updates, requests (to unknown states too) and terminations in which additions are careful keeps the discipline |
| StateMachines.CarelessBreaks | CORE/UTIL/state_machine.cpp:70-141 | once the state a terminated machine still has as its current one is added again, any update or termination breaks the discipline |
| StateMachines.SpoiltRun | CORE/UTIL/state_machine.cpp:70-184 | and whatever comes in between does not mend that |
| StateMachines.DisciplinedIffCareful | CORE/UTIL/state_machine.cpp:70-184 | from every disciplined machine, a run of real states stays disciplined if and only if its additions are careful |
| StateMachines.TerminatedMachineIsCareless | CORE/UTIL/state_machine.cpp:126-141 | such a machine is reached by adding a state, updating and terminating, since the current id is kept |
| StateMachines.RequestIsServed | CORE/UTIL/state_machine.cpp:98-184 | for every disciplined machine with an active state, what its update callback or a caller requests happens in the next update, whatever is added in between: Exited the active state, Entered and Updated the other, which is current; for an unknown one Exited only and nothing current; for the active one just Updated |
| StateMachines.NothingRequested | CORE/UTIL/state_machine.cpp:98-108 | an update whose callback requests nothing is followed by an update of the same state |
| StateMachines.FirstStateStarts | CORE/UTIL/state_machine.cpp:70-184 | the state added first is entered and updated by the first update |
| StateMachines.TermEndsAll | CORE/UTIL/state_machine.cpp:126-141 | Exited for the current state if there is one, Terminated for all states in the order of their addition, and no state left |
| StateMachines.StateMachine.AddState | CORE/UTIL/state_machine.cpp:70-93 | a state not yet in is added, and is the first to be entered if nothing else is current or requested |
| StateMachines.StateMachine.Update | CORE/UTIL/state_machine.cpp:98-108 | changes states, then updates the current one, whose request is kept for later |
| StateMachines.StateMachine.ChangeStates | CORE/UTIL/state_machine.cpp:162-184 | the loop leaves the current state and finds the next; an unknown target leaves none current |
| StateMachines.StateMachine.Term | CORE/UTIL/state_machine.cpp:126-141 | the current state is left, all are terminated in order and forgotten |
| AppStats.StatTable.FindIf | CORE/BASE/appstats.cpp:104-107 | the first slot with the name, or the first free one |
| AppStats.StatTable.Claim | CORE/BASE/appstats.cpp:97-111 | the slot that has the name, or else the first free one, which is claimed; no other slot changes and no name has two |
| AppStats.ClaimAll | CORE/BASE/appstats.cpp:97-111 | on any table with a free slot for every name without one, handles share a slot if and only if their names are equal |
| AppStats.StepKeeps | CORE/BASE/appstats.cpp:158-184 | every atomic step of every thread keeps the counter equal to the logged calls one after another, and every thread's calls logged once each in order |
| AppStats.EveryInterleaving | CORE/BASE/appstats.cpp:158-184 | so does every schedule |
| AppStats.CounterConserved | CORE/BASE/appstats.cpp:158-184 | under every interleaving the counter is the sum modulo 2^32 of the increments that took effect since the last reset |
| AppStats.NothingLostOrDoubled | CORE/BASE/appstats.cpp:158-184 | when all threads are done each has logged exactly its own calls in order |
| AppStats.FailureMeansProgress | CORE/BASE/appstats.cpp:165-184 | an exchange fails only if another call took effect since the load |
| AppStats.ExchangeSucceeds | CORE/BASE/appstats.cpp:165-172 | an exchange on a counter equal to the loaded value logs the call, removes it from the thread's calls and leaves the new value |
| AppStats.CallCompletes | CORE/BASE/appstats.cpp:158-184 | a thread that runs undisturbed completes its call in at most two steps from the load and three from anywhere: the counter is what the call makes of it, the call is logged once, no other thread moves |
| AppStats.ThreadCompletes | CORE/BASE/appstats.cpp:158-184 | so it completes all its calls, in at most two steps each and one more |
| AppStats.AllComplete | CORE/BASE/appstats.cpp:158-184 | from every state that is reached some schedule completes all threads |
| AppStats.LockFree | CORE/BASE/appstats.cpp:158-184 | under every schedule in which some unfinished thread moves three times, some call takes effect |
| AppStats.OneIncrement | CORE/BASE/appstats.cpp:165-172 | one thread with one increment: after two steps the counter has grown by the amount, modulo 2^32 |

## Left out

- RegexPattern.RegExPattern.Build: patterns too large (TOO_COMPLICATED) stop the source's process, and NEVER_RETURNS stands for its unbounded loop; the model names these outcomes.  State numbers are integers with -1 for the unset exit; the source stores them in 32 bits and refuses 255 states or more.
- RegexNfa.Nfa.AddSplit: asks that following SPLIT edges from the state ends; where it does not the source recurses until its stack is used up.
- RegexNfa.Nfa.Scan: asks for the same wherever the scan gets to.  A range with an unknown letter matches nothing, where the source stops.
- DistanceField.DistanceGrid.ComputeSdf: does not model float rounding, overflow of the 32-bit cell count, or the square root and byte output of the result, because exactness is about the sweeps.  The source compares a cell with its neighbours one call after another; Relax takes them as a list in that order.
- Events.EventSource.EmitPlan: one event source, and callbacks are finite scripts of bind, unbind and emit; a callback that destroys the source is not modelled.  A null delegate is sink 0.
- Wire.MessageRoundTrip: sizes are below 2^64; floats are bit patterns; the has_ flags of a new builder are false, which the emitted constructor leaves unset; enum values are 0 to 2^31 - 1.
- WireInput.InSink.GetMessage: on input that the decoder function does not accept, the flag and the bytes left are given, but not the message, as numbers and the ends of strings that were not there to read hold whatever the memory held.
- WireInput.InSink.GetVarUInt: the accumulator is a number modulo 2^64, and shifts of 64 and more, undefined in the source, add nothing.
- WireOutput.OutSink.PutVarUInt: shifting and masking are division and remainder by 128.
- ProtoDefSinks.GetMessage: after a failed read the source still runs its counted loops, the model stops; size_t is 64 bits wide, and memory for huge counts is taken for granted.
- ProtoDef.FieldBack: the field type is kept as its number, whether or not it is one of the enumeration.
- ProtoValidator.VerifyFields: the loop over enum values reports zero and negative numbers apart; both are refusals here.
- ProtoTypes.FixFile: resolves the fields of messages; the parameter and result types of RPC functions, which go through the same search, and opening and parsing the imports are left out.
- ProtoTypes.AcceptedRoundTrip: two messages with the same qualified name in different files count as one type.
- VfsPath.CleanPath: the text is not cut at a NUL character.
- AppStats.ClaimAll: asks for enough free slots; on a full table the source goes on past the end of the array unless assertions are on.
- AppStats.EveryInterleaving: memory is sequentially consistent, and a thread's calls are known in advance.
- StateMachines.RunsAreDisciplined: transitions are requested from outside or from an update callback, not from the enter, exit or termination callbacks; assertions of debug builds do not stop the machine.
- StateMachines.DisciplinedIffCareful: the states added have an id other than STATE_INVALID, which stands for no state.
- Escape.Escape: characters above 126 count as unprintable.
* Registration and lookup of descriptors, the text of the emitted code, the text format, the XML and grammar tools, and everything that talks to files, sockets, windows or clocks.
* The AppInfo strings, the RPC code and the searches in lists of descriptors: single look-ups and glue that no other part of the model rests on.
