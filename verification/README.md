# green-parse, modelled in Dafny

green-parse is a JavaScript parser-combinator engine. A *matcher* takes a
string `s` and an offset `i`. It enumerates, lazily and in a fixed order, every
way it can match starting at `i`. Each way is a record `{j, match}`: `j` is the
offset where the match ends and `match` is its value, a string or a nested
list. Whole grammars are built from primitives (`NOTHING`, `EMPTY`, `CHR`,
`UNICODE`, `fixed`, anchored regular expressions) and combinators (`or`, `seq`,
`times`/`star`/`plus`, `maybe`, `map`, `filter`, and named rules through
`resolve`). A parser then keeps the full-length matches.

The repository holds three generations of the engine, plus a parser that
insists on exactly one parse. Each gets its own module here:

- `Records` (records.dfy) is the shared vocabulary:
  - strings are sequences of UTF-16 code units;
  - a record is `Record(j, v)`, a value is `Str` or `List`;
  - a matcher is a function `(Text, nat) -> seq<Record>`, that is, its whole
    enumeration in order;
  - it also holds the side conditions `Sound`, `Monotone` and `Advancing`
    (the end offset stays in bounds, never goes back, always moves forward);
  - `FullValues` is the values of the records that end at the end of input.
- `Search` (search.dfy) is the depth-first enumeration tree that every
  sequence and repetition combinator walks. Node `d` of a branch lists the
  records of the `d`-th element at the offset where the branch stands. A node
  reports its list when it holds at least `min` values, and it has children
  while it holds fewer than `max`. `Tree` is the enumeration of such a tree.
  The module also gives the stack view the iterative versions use: a stack of
  frames, each a cursor into one node's children. `Pending` is what a stack
  has yet to yield, and `Work` is a measure that falls with every step.
- `Simple` (simple.dfy) is src/simple.js. It is written as the source writes
  it: mutually recursive generator functions, proved equal to a `Search.Tree`.
- `StackSafe` (stack_safe.dfy) is the merged (HEAD) side of
  src/simple/index.js:
  - the primitives;
  - regex construction checks;
  - `promote` with its errors;
  - `seq` and `times`, which walk an explicit stack in a loop, here methods
    proved to produce the tree's enumeration;
  - `map`, `filter` and `resolve`;
  - the proofs that, on the inputs both accept, `seq` and `times` enumerate
    exactly what the src/simple.js versions do.
- `Iterators` (iterators.dfy) is src/main.js's hand-written iterator state
  machines, as classes whose `Next` updates their fields. Each class has a ghost
  `Remaining()`, the records it has yet to return. Every `Next` returns the head
  of `Remaining()` and leaves its tail. The constructor fixes `Remaining()` to
  the enumeration the combinator stands for.
- `Derived` (derived.dfy) is main.js's compositions `plus`, `wseq` and
  `wplus`, proved to enumerate what src/simple.js's `plus` and
  separator-`seq` do.
- `MonoParsing` (mono_parser.dfy) is src/mono-parser.js: a loop over the
  enumeration from offset 0.

## Model

| member | source | states |
|---|---|---|
| Records.FullValuesMember | src/main.js:397-417 | a value is among the parser's results exactly when a record ending at `|s|` carries it |
| Records.FullValuesAppend | src/main.js:402-412 | the full-length values of a concatenated enumeration are those of each part, in order, so partial parses are skipped without reordering |
| Records.MapRecords | src/simple/index.js:332-339 | mapping keeps the number of records and each record's `j`, and replaces each value `v` with `f(v)` |
| Records.FilterRecordsMember | src/simple/index.js:341-347 | a record survives `filter` exactly when it was in the input and its value passes |
| Records.FilterRecordsSubsequence | src/simple/index.js:341-347 | what `filter` keeps is an order-preserving subsequence of its input |
| Records.SubstrIsSlice | src/simple/index.js:47-54 | `substr(start, length)` inside the string is the slice `s[start..start+length]` |
| Simple.FixedMatches | src/simple.js:40-47 | `fixed(needle)` yields exactly one record `{i+|needle|, needle}` when the text at `i` equals the needle, and nothing otherwise |
| Simple.EmptyMatches | src/simple.js:49 | `EMPTY = fixed('')` yields `{i, ''}` at every offset up to and including `|s|` |
| Simple.ChrMatches | src/simple.js:8-15 | `CHR` yields `{i+1, s[i]}` exactly when `i < |s|` |
| Simple.UnicodeMatches | src/simple.js:17-38 | `UNICODE` gives nothing at the end of input; one unit for a non-high-surrogate, a lone low surrogate included; two units for a high surrogate followed by DC00..DFFE; nothing for a high surrogate not so followed |
| Simple.UnicodeRejectsLastLowSurrogate | src/simple.js:23 | the strict `<` rejects the valid pair DBFF, DFFF: it gives no record |
| Simple.PromoteAll | src/simple.js:53-54 | promoting a list keeps its length, and item `k` becomes `fixed` of it when a string and stays as it is otherwise |
| Simple.OrAllMember | src/simple.js:60-67 | a record is in `or(inners)` exactly when some promoted inner yields it at the same offset |
| Simple.OrAllAppend | src/simple.js:60-67 | `or` over a concatenated list is the concatenation of the two `or`s, so alternatives come out in list order |
| Simple.OrPair | src/simple.js:60-67 | `or([a, b])` is `a`'s records followed by `b`'s |
| Simple.OrKeepsDuplicates | src/simple.js:60-67 | `or(['a','a'])` on `'a'` yields the record `{1, 'a'}` twice: nothing is deduplicated |
| Simple.LeadLaws | src/simple.js:78 | the separator chosen for element `d` (EMPTY before the first) keeps the separator's monotonicity and soundness |
| Simple.Seq | src/simple.js:69-73 | construction fails exactly when a separator is given with no inners, with the message 'Not well-defined less than 1 inner' |
| Simple.SeqFromIsTree | src/simple.js:75-95 | the recursive generator enumerates exactly the depth-first tree whose level `d` is element `d` preceded by its separator (none before the first) |
| Simple.SeqShape | src/simple.js:75-95 | every record of `seq` holds a list of exactly `|inners|` values |
| Simple.SeqHoldsElementValues | src/simple.js:78-89 | item `k` of every list `seq` yields is a value element `k` matches somewhere, so no separator value is kept |
| Simple.SeqOfNothing | src/simple.js:75-94 | `seq([])` yields exactly one record, `{i, []}` |
| Simple.SeqStartsWithFirstElement | src/simple.js:76-85 | a non-empty `seq` enumerates its first element's records as the outermost loop |
| Simple.EmptyMonotone | src/simple.js:49 | EMPTY never moves backwards |
| Simple.Times | src/simple.js:98-107 | construction fails with 'Not well-defined for less than 1 copy' when a separator comes with `min < 1`, and otherwise with 'huh' when the inner is the empty string; it succeeds otherwise. It can be called on every input the source rejects, unbounded or not |
| Simple.EmptyStringRepetition | src/simple.js:103-105 | `times('', …)`, `star('')` and `plus('', sep)` are all rejected with 'huh', even though they are unbounded |
| Simple.SeparatorNeedsOneCopy | src/simple.js:100-102 | `times(inner, 0, max, sep)` is rejected with 'Not well-defined for less than 1 copy' whatever the inner and the bound |
| Simple.TimesPlanFinite | src/simple.js:108-124 | under the termination side condition, the repetition tree is finite |
| Simple.TimesFromIsTree | src/simple.js:108-124 | the recursive generator enumerates exactly the depth-first repetition tree, where each node reports its list when it holds at least `min` values and extends it while it holds fewer than `max` |
| Simple.TimesCounts | src/simple.js:108-124 | every record of `times` holds a list with `min <= length <= max` |
| Simple.TimesStartsEmpty | src/simple.js:108-114 | with `min = 0` the first record is `{i, []}`, because a node yields its list before extending it |
| Simple.StarStartsEmpty | src/simple.js:130-131 | `star` yields `{i, []}` first |
| Simple.MaybeMatches | src/simple.js:136-142 | `maybe` yields `{i, ''}` and then every record of the inner |
| Simple.MapKeepsOffsets | src/simple.js:159-169 | `map` keeps the number of records and each `j`, and applies `f` to each value |
| Simple.FilterKeepsPassing | src/simple.js:171-180 | `filter` keeps exactly the records whose value passes, as an in-order subsequence |
| Simple.FixedSound | src/simple.js:40-47 | a `fixed` match ends after its start and inside the string |
| Simple.FixedAdvancing | src/simple.js:40-47 | a non-empty `fixed` always moves forward |
| Simple.PrimitivesSound | src/simple.js:6-49 | NOTHING, CHR, UNICODE and EMPTY stay in bounds; CHR and UNICODE always move forward |
| Simple.OrSound | src/simple.js:60-67 | `or` over in-bounds inners stays in bounds |
| Simple.TimesSound | src/simple.js:98-128 | `times` over an in-bounds inner and separator stays in bounds |
| Simple.SeqSound | src/simple.js:69-96 | `seq` over in-bounds inners and separator stays in bounds |
| Simple.PromoteRules | src/simple.js:145-157 | the closed rule map `resolve` builds has exactly the rule names of the open one, and each rule is the promoted inner of its open counterpart |
| Simple.RefDelegates | src/simple.js:145-157 | a rule that is a reference to another rule matches as that rule does, one unfolding later |
| Simple.MapSeenThroughRef | src/simple.js:145-169 | a `map` in the referenced rule shows in the results of the rule that refers to it |
| Simple.MapAroundRef | src/simple.js:145-169 | a `map` around a reference applies to the referenced rule's records |
| StackSafe.PrimitivesAgree | src/simple/index.js:6-22 | NOTHING, EMPTY, CHR and `fixed` enumerate exactly what the src/simple.js ones do |
| StackSafe.UnicodeMatches | src/simple/index.js:24-45 | as in src/simple.js, except that the low surrogate may be any of DC00..DFFF inclusive |
| StackSafe.UnicodeDiffersOnlyAtLastLowSurrogate | src/simple/index.js:30 | the two UNICODEs differ exactly when a high surrogate at `i` is followed by DFFF |
| StackSafe.CaptureValues | src/simple/index.js:63-71 | a regex match's value is the list of the whole match followed by every capture group |
| StackSafe.Regex | src/simple/index.js:56-72 | construction fails exactly when the flag is global (checked first, "Can't use a global RegExp") or the source does not start with `^` ('RegExp must be anchored at the start of the substring'); a built regex yields at most one record |
| StackSafe.GlobalCheckedFirst | src/simple/index.js:57-62 | `/^a/g`, which is anchored, still gets the global error |
| StackSafe.Promote | src/simple/index.js:77-81 | a string becomes `fixed`, a RegExp becomes `regex` (with its errors), and anything else is kept as it is |
| StackSafe.PromoteAll | src/simple/index.js:87-94 | promoting a list succeeds exactly when every item does, keeps each promoted item in place, and otherwise fails with the message of the first item that fails |
| StackSafe.Or | src/simple/index.js:87-94 | `or` builds exactly when all its inners promote, and otherwise fails with the first failing inner's message; once built it yields every promoted inner's records at the same offset, in list order |
| StackSafe.OrAgreesWithSimple | src/simple/index.js:87-94 | for RegExp-free inners, the stack-safe `or` builds and enumerates exactly what src/simple.js's `or` does, so `Simple.OrAllMember`, `Simple.OrAllAppend` and `Simple.OrKeepsDuplicates` carry over |
| StackSafe.OrAllSame | src/simple/index.js:90-92 | alternatives that match alike at an offset give the same `or` there |
| StackSafe.SepOf | src/simple/index.js:96 | a missing separator is EMPTY, and a given one is promoted |
| StackSafe.Wrap | src/simple/index.js:117-124 | element 0 is kept bare, and every later element is the separator followed by the element with the separator's value dropped |
| StackSafe.Seq | src/simple/index.js:96-107 | with no inners it yields exactly `{i, []}` even with a separator; otherwise it builds exactly when the separator and every inner promote, and a failure carries the separator's message, or else the first failing inner's |
| StackSafe.SeqWalk | src/simple/index.js:126-152 | the stack loop yields exactly the depth-first tree's enumeration, a record each time the stack is full, ending when the stack empties |
| StackSafe.TimesPlanFinite | src/simple/index.js:217-278 | under the termination side condition, the stack walk's tree is finite |
| StackSafe.Times | src/simple/index.js:195-206 | `max = 0` yields exactly `{i, []}`, even with a separator; otherwise it builds exactly when the separator and the inner promote, and a failure carries the separator's message, or else the inner's |
| StackSafe.TimesCounts | src/simple/index.js:251 | every record is a list of at most `max` values, and of at least `min` unless `max = 0`, for every input `times` builds (separators with `min = 0`, the empty string and RegExps included) |
| StackSafe.TimesStartsEmpty | src/simple/index.js:224-229 | with `min = 0` the first record is `{i, []}`, for every input `times` builds |
| StackSafe.Backtrack | src/simple/index.js:264-275 | popping exhausted frames keeps the stack consistent, and the records still pending are exactly the top frame's remaining subtree followed by what lies below it; `Work` strictly falls |
| StackSafe.Visit | src/simple/index.js:221-262 | one visit reports the current list when it is long enough, opens a frame when it is short enough, and moves the node's subtree from pending to output |
| StackSafe.VisitReport | src/simple/index.js:247-256 | a list is reported exactly when `min <= stack.length`, with `j` from the top frame, or `i` on an empty stack |
| StackSafe.VisitOpen | src/simple/index.js:258-262 | a frame is pushed exactly when `stack.length < max`, on `firstInner` at depth 0 and `nonFirstInner` after that |
| StackSafe.TimesWalk | src/simple/index.js:217-278 | the stack loop yields exactly the repetition tree's enumeration |
| StackSafe.MapKeepsOffsets | src/simple/index.js:332-339 | `map` keeps the number of records and each `j`, and applies `f` to each value |
| StackSafe.FilterKeepsPassing | src/simple/index.js:341-347 | `filter` keeps exactly the records whose value passes, in order |
| StackSafe.MapSeenThroughRef | src/simple/index.js:326-339 | a `map` in a referenced rule is seen through `ref` |
| StackSafe.MapAroundRef | src/simple/index.js:326-339 | a `map` around `ref(name)` maps the referenced rule's records |
| StackSafe.PlainAll | src/simple/index.js:87-94 | the regex-free inners carry over one for one to src/simple.js inners |
| StackSafe.PromoteAgrees | src/simple/index.js:77-81 | for a regex-free inner, `promote` succeeds and matches as src/simple.js's `promote` does |
| StackSafe.SepAgrees | src/simple/index.js:96 | the default or promoted separator matches as src/simple.js's does |
| StackSafe.FirstUnled | src/simple/index.js:117-124 | leaving element 0 unwrapped is the same as src/simple.js's EMPTY separator before the first element |
| StackSafe.SeqAgreesWithSimple | src/simple/index.js:96-152 | for non-empty regex-free inners, the stack-based `seq` enumerates exactly what src/simple.js's `seq` does |
| StackSafe.Fns | src/simple/index.js:107 | the promoted inners handed on as matchers, one for one, with no RegExp among them |
| StackSafe.PromoteFns | src/simple/index.js:77-81 | promoting matchers that are already matchers gives them back unchanged |
| StackSafe.SeqAgreesPromoted | src/simple/index.js:96-152 | with RegExps allowed, a non-empty `seq` that builds enumerates what src/simple.js's `seq` does over the promoted inners and separator |
| StackSafe.SeqOfNoneWithSeparator | src/simple/index.js:98-100 | with zero inners and a separator the stack-based `seq` builds, where src/simple.js's throws |
| StackSafe.TimesPlansAgree | src/simple/index.js:210-278 | the first/non-first walk has the same tree as src/simple.js's recursion with its leading-separator rule |
| StackSafe.TimesAgreesWithSimple | src/simple/index.js:195-278 | where both build and `max != 0`, the stack-based `times` enumerates exactly what src/simple.js's does |
| StackSafe.TimesAgreesPromoted | src/simple/index.js:195-278 | with RegExps allowed, a `times` that builds enumerates what src/simple.js's does over the promoted inner and separator, where src/simple.js accepts those and `max != 0` |
| StackSafe.TimesMaxZero | src/simple/index.js:196-203 | with `max = 0` both generations yield only `{i, []}`, but the stack-based one does so even when `min > 0` |
| StackSafe.TimesOfEmptyString | src/simple/index.js:195-206 | a bounded `times('', …)` builds here, since there is no `!inner` check, while src/simple.js throws 'huh' |
| StackSafe.TimesWithSeparatorFromZero | src/simple/index.js:195-229 | `times(inner, 0, max, sep)` builds here, bounded or not, and yields `{i, []}` first, while src/simple.js throws 'Not well-defined for less than 1 copy' |
| StackSafe.StarWithSeparator | src/simple/index.js:281-282 | `star` with a separator builds here and yields `{i, []}` first, while src/simple.js's `times(…, 0, …, sep)` throws 'Not well-defined for less than 1 copy' |
| Iterators.OrAllFrom | src/main.js:199-214 | the alternatives from inner `k` on are inner `k`'s records followed by those from `k + 1` on |
| Iterators.ChrIterator.constructor | src/main.js:83-87 | a fresh `chr` iterator has yet to return exactly CHR's enumeration at `i` |
| Iterators.ChrIterator.Next | src/main.js:88-101 | `next()` returns the head of what remains and keeps the tail; once it reports done it stays done |
| Iterators.UnicodeIterator.constructor | src/main.js:111-119 | a fresh `unicode` iterator has yet to return the stack-safe UNICODE enumeration, the high-surrogate range [D800, DC00) and low range [DC00, E000) included |
| Iterators.UnicodeIterator.Next | src/main.js:120-156 | `next()` returns the head of what remains and keeps the tail; done stays done |
| Iterators.FixedIterator.constructor | src/main.js:161-165 | a fresh `fixed` iterator has yet to return `fixed(needle)`'s enumeration |
| Iterators.FixedIterator.Next | src/main.js:166-179 | `next()` returns the head of what remains and keeps the tail; done stays done |
| Iterators.OrIterator.constructor | src/main.js:187-190 | a fresh `or` iterator has yet to return every inner's records in list order |
| Iterators.OrIterator.Next | src/main.js:192-218 | `next()` returns the head of what remains and keeps the tail; done stays done. `innerId` never goes back, and it moves past the alternative it started on only when that iterator was exhausted. Every alternative it opens and leaves within the call yielded nothing. A record handed out is one of the records of alternative `innerId` |
| Iterators.OrIterator.Step | src/main.js:199-214 | one pass of the loop either returns the next record or changes nothing that remains while the distance to done falls; either way it keeps the call's progress on `innerId` (`Progressed`), and a record it returns comes from alternative `innerId` (`Settled`) |
| Iterators.OrIterator.Pull | src/main.js:199-205 | asking the current inner either returns the record at its position, keeping `innerId`, or drops the exhausted inner |
| Iterators.OrIterator.Open | src/main.js:206-213 | `innerId` goes up by one, and a fresh iterator for that alternative is opened exactly when one remains; otherwise `or` is done. Nothing that remains changes |
| Iterators.OrIterator.PulledRecord | src/main.js:200-204 | a record taken from the current alternative leaves the call settled on that alternative |
| Iterators.OrIterator.DroppedSpent | src/main.js:200-202 | dropping an exhausted iterator keeps the call's progress; if the alternative was opened in this call, it yielded nothing |
| Iterators.OrIterator.OpenedNext | src/main.js:207-213 | moving `innerId` on past a dropped iterator keeps the call's progress |
| Iterators.PullTop | src/main.js:248-256 | advancing the top frame keeps the stack consistent, or pops it when exhausted |
| Iterators.SeqIterator.constructor | src/main.js:228-231 | a fresh `seq` iterator has yet to return exactly the depth-first tree of its inners, the same as src/simple.js's `seq` without separator |
| Iterators.SeqIterator.Next | src/main.js:233-266 | `next()` returns the head of what remains and keeps the tail; `depth` stays in [-1, `stack.length`] with `stack.length <= |inners|`, and `depth = -1` means finished |
| Iterators.SeqIterator.Step | src/main.js:235-262 | one pass of the loop either returns the next record or leaves what remains unchanged while the distance falls |
| Iterators.SeqIterator.Emit | src/main.js:237-246 | when `depth === inners.length` the record emitted is the head of what remains: the frames' values, with `j` from the last frame, or `i` with no elements |
| Iterators.SeqIterator.Pull | src/main.js:248-256 | advancing or popping the top frame changes nothing that remains |
| Iterators.SeqIterator.Push | src/main.js:257-261 | opening a frame for element `depth` at the last frame's end changes nothing that remains |
| Iterators.StarOpens | src/main.js:295-302 | the list reported before a push is the current frames' values at the top frame's end, and the new frame opens the node's children |
| Iterators.StarIterator.constructor | src/main.js:276-279 | a fresh `star` iterator has yet to return exactly src/simple.js's `star` of the inner |
| Iterators.StarIterator.Next | src/main.js:281-312 | `next()` returns the head of what remains and keeps the tail; done stays done |
| Iterators.StarIterator.Step | src/main.js:283-308 | one pass of the loop either returns the next record or leaves what remains unchanged while the distance falls |
| Iterators.StarIterator.Expand | src/main.js:295-306 | the current list is emitted before a new frame is pushed |
| Iterators.MapIterator.constructor | src/main.js:23-25 | a fresh mapped iterator has yet to return the inner's records with each value mapped and each `j` kept |
| Iterators.MapIterator.Next | src/main.js:27-44 | `next()` returns the head of what remains and keeps the tail; done stays done |
| Iterators.FilterIterator.constructor | src/main.js:49-51 | a fresh filtered iterator has yet to return the inner's passing records in order |
| Iterators.FilterIterator.Next | src/main.js:53-67 | `next()` returns the head of what remains, skipping failing records, and keeps the tail; done stays done |
| Iterators.ParserIterator.constructor | src/main.js:397-399 | a fresh parser has yet to return the values of the records from offset 0 that end at `|s|`, in order |
| Iterators.ParserIterator.Next | src/main.js:401-415 | `next()` returns the head of what remains, skipping partial parses, and keeps the tail; done stays done |
| Derived.Fns | src/main.js:362 | plain matchers carry over one for one to src/simple.js inners |
| Derived.WSeq | src/main.js:370-378 | `wseq` fails exactly on an empty list, with 'Not well-defined for 0 inners' |
| Derived.Wrapped | src/main.js:375-377 | element 0 is kept bare, and every later element is `seq([separator, inner])` mapped to its second value |
| Derived.PairLast | src/main.js:228-268 | in a two-element `seq`, the records after a first value `a` pair `a` with each record of the second |
| Derived.PairFirst | src/main.js:228-268 | a two-element `seq` is, for each record of the first element, its pairings with the second |
| Derived.SeqOfTwo | src/main.js:228-268 | `seq([a, b])` is the pairs of each `a` record with each `b` record from its end |
| Derived.SecondOfPairs | src/main.js:376 | mapping pairs to their second value gives exactly the second matcher's records from each end |
| Derived.BehindIsThen | src/main.js:376 | `seq([separator, inner])` mapped to its second value matches as the separator followed by the inner |
| Derived.SeqAgreesWithSimple | src/main.js:228-268 | main.js's `seq` enumerates exactly what src/simple.js's `seq` without separator does |
| Derived.StarAgreesWithSimple | src/main.js:276-314 | main.js's `star` enumerates exactly what src/simple.js's `star` does |
| Derived.StarStartsEmpty | src/main.js:295-306 | main.js's `star` yields `{i, []}` first |
| Derived.JoinedPairs | src/main.js:362-363 | joining a first copy with the list `star` made after it gives the subtrees of a repetition counted from one |
| Derived.PlusAgreesWithSimple | src/main.js:362-363 | main.js's `plus` enumerates exactly what src/simple.js's `plus` without separator does |
| Derived.WPlusAgreesWithSimple | src/main.js:383-386 | `wplus` enumerates exactly what src/simple.js's `plus` with that separator does |
| Derived.WSeqAgreesWithSimple | src/main.js:370-378 | a non-empty `wseq` enumerates exactly what src/simple.js's `seq` with that separator does |
| Derived.PlusNonEmpty | src/main.js:362-363 | `plus` yields only lists of at least one value |
| Derived.WPlusNonEmpty | src/main.js:383-386 | `wplus` yields only lists of at least one value |
| Derived.WSeqHoldsElementValues | src/main.js:370-378 | every `wseq` list holds one value per element and no separator value |
| MonoParsing.MonoParse | src/mono-parser.js:7-26 | records not ending at `|s|` are skipped; no full-length record gives 'Expected 1 result, got 0'; exactly one gives its value; a second raises 'Expected 1 result, got at least 2' as soon as it is reached, before the rest is consumed |
| MonoParsing.FullValuesPrefix | src/mono-parser.js:9-24 | the full-length values of a prefix of the enumeration are a prefix of all of them, so the outcome depends only on that subsequence |

## Left out

- Regular-expression matching itself is not modelled. It is the JavaScript RegExp engine. `StackSafe.Regex` takes the match function as a parameter (`exec`) and checks only the construction-time flag and anchor. src/simple.js's `regex`, which calls a method RegExp does not have, is not part of this model.
- src/matcher/index.js and src/matcher.js are not part of this model. They are fluent facades that delegate to the modelled layers.
- main.js's Y-combinator `resolve` (src/main.js:321-355) is left out. It is a fixpoint over untyped function values. Late binding of rule names is modelled through the `ref` of src/simple.js and src/simple/index.js instead.
- The `Matcher` method aliases `star`, `plus`, `or`, `seq` and `wplus` (src/main.js:71-75) are left out. Each is a one-line call to the modelled combinator with the receiver as first argument.
- The non-HEAD side of the merge conflicts in src/simple/index.js is left out, as are the examples and test files.
- Laziness is not modelled. An enumeration is a finite sequence, so an infinite enumeration cannot be expressed. Iterators are cursors into the enumerations of their inner matchers.
- Simple.Times: requires `Accepted`. Every input it rejects at construction is allowed (a separator with `min < 1`, or the empty string). On the others it requires `Terminates`: the inner always advances and the separator never goes back, unless `max` bounds the depth. The source does not check this, and a left-recursive or zero-length repetition then loops forever; a finite enumeration cannot model that.
- Simple.Star: requires `Advancing` of the inner unless it is the empty string, which is rejected, for the same reason.
- Simple.Plus: requires `Advancing` of the inner and `Monotone` of the separator unless the inner is the empty string, which is rejected, for the same reason.
- StackSafe.Times: requires `Terminating` for the same reason.
- StackSafe.Star: requires `Terminating` for the same reason.
- StackSafe.Plus: requires `Terminating` for the same reason.
- Derived.Plus: requires `Advancing` for the same reason.
- Derived.WPlus: requires `Advancing` of the inner and `Monotone` of the separator for the same reason.
- Iterators.StarIterator.constructor: requires `Advancing` for the same reason.
- Simple.Closed and StackSafe.Closed unfold `resolve` a given number of times (`fuel`) instead of tying the knot. The lemmas relate one unfolding to the next. A reference that runs out of fuel, or names a missing rule, yields no records, where the source throws a TypeError when matching.
- StackSafe.Map and StackSafe.Filter take matchers, not strings or RegExps. src/simple/index.js does not promote their inner.
- Derived.Plus and Derived.WPlus use `Joined`, and `Derived.Wrapped` uses `Second`. Both are correct on the two-item lists `seq` of two elements produces. Their fallback for other values is never used.
- The concrete enumeration orders from the tests are not restated as lemmas, e.g. the five parses of `star(or(['a','aa']))` over `'aaaa'`. The order follows from the `Tree` equalities above.
- Records are compared as whole values. JavaScript's object identity of records, which `filter` passes through unchanged, is not modelled.

## Findings

| source | as written | input that shows it | evidently intended | confidence | as-written member | corrected member |
|---|---|---|---|---|---|---|
| src/simple.js:23 | `0xDC00 <= next && next < 0xDFFF` excludes the low surrogate DFFF | text `[0xDBFF, 0xDFFF]` at offset 0: `UNICODE` yields no record for a valid surrogate pair | `<= 0xDFFF`, as in src/simple/index.js:30 (and `< 0xE000` in src/main.js:132), giving one record of length 2 | not executed | Simple.UnicodeRejectsLastLowSurrogate | StackSafe.UnicodeMatches |

Notes on the generations:

- `UNICODE` gives a lone low surrogate a one-unit match in all three generations.
- The generations differ in these places:
  - `times` with `max = 0` and `min > 0` (`StackSafe.TimesMaxZero`);
  - `seq` with a separator and no inners (`StackSafe.SeqOfNoneWithSeparator`);
  - `times` with a separator and `min < 1`, bounded or not, `star` with a separator included (`StackSafe.TimesWithSeparatorFromZero`, `StackSafe.StarWithSeparator`);
  - `times` of the empty string: src/simple/index.js has no `!inner` check, so a bounded `times('', …)` builds there and throws 'huh' in src/simple.js (`StackSafe.TimesOfEmptyString`);
  - RegExp inners, which only src/simple/index.js promotes (`StackSafe.SeqAgreesPromoted`, `StackSafe.TimesAgreesPromoted` relate them to src/simple.js through the promoted matchers).

  The model keeps each as written.
