# ReverX in Dafny

ReverX infers the formats and state machines of network protocols from captured
traffic. This project is a Dafny model of its core and proves properties of it:

- **Automata** (`automaton.dfy`, `mapping.dfy`, `merge.dfy`, `determinize.dfy`,
  `minimize.dfy`). The `Automaton`, `State` and `Transition` classes become one
  automaton object holding an arena of state records. An arena index stands for
  object identity. The model covers:
  - insertion of a symbol sequence into the prefix tree, acceptance and path
    enumeration;
  - the representative map `merged_mapping` and the work-queue state merge;
  - the subset construction;
  - the table-filling minimisation with its dependency lists.
- **Symbols** (`pattern_text.dfy`, `regex.dfy`, `regex_objects.dfy`,
  `regex_operations.dfy`, `regex_path.dfy`, `byte_chars.dfy`). These are the two
  `RegEx` classes and their shared `\Q…\E` quoting algebra, the tokenizer, the two
  generalisations and the pattern-token algebra of `RegExOperations`. Also here are
  the backtracking path search, with the regular-expression matcher taken as a
  parameter, and the byte window `ByteChars`.
- **Format-language inference** (`language.dfy`, `generalization.dfy`,
  `linear_chains.dfy`, `inference.dfy`). These are the prefix tree of tokenised
  messages, the count- and ratio-threshold generalisation passes, the folding of
  linear chains and the `inferFromTraces` pipeline.
- **State machines** (`message_types.dfy`, `sessions.dfy`, `moore.dfy`). These are
  the message-type symbols, the conversion of sessions into message-type sequences
  for the Moore and Mealy machines, and the two reductions of the Moore machine
  with its generalisation loop.
- **Support code** (`java.dfy`, `wrappers.dfy`, `convert.dfy`, `utils.dfy`,
  `options.dfy`, `options_extended.dfy`, `mutable_int.dfy`, `timer.dfy`,
  `cell.dfy`, `alignment.dfy`). This covers:
  - Java's integer and string operations as the model needs them;
  - the byte codecs;
  - the escape pair;
  - the two command-line parsers;
  - the boxed counter;
  - the time formatter;
  - the global sequence alignment and its cells.

Conventions:

- A thrown exception becomes an `Err` of a `Result` that names the exception.
- A `null` return becomes `None`.
- Java `int` arithmetic is written out modulo 2^32 where it can wrap.
- Objects that the source updates in place are classes with `modifies` clauses,
  and each of their methods is proved against a function on values.
- Symbol equality is a parameter `eq` wherever the automaton code is generic.

## Model

| member | source | states |
|---|---|---|
| Automata.GetTransition | reverx/src/automata/State.java:79-84 | the first transition in list order whose symbol equals `x`; none exactly when no transition's symbol equals `x` |
| Automata.AcceptedTransitions | reverx/src/automata/State.java:93-99 | a transition is in the result exactly when it is one of the state's transitions into `d`; the result is no longer than the list |
| Automata.AcceptedInOrder | reverx/src/automata/State.java:93-99 | the result is the transitions at increasing positions of the list, and those positions are exactly the transitions into `d`: list order and every copy are kept |
| Automata.SumFreqAppend | reverx/src/automata/State.java:72-77 | the sum of the frequencies over two lists one after the other is the sum of the two sums |
| Automata.SumFreqUpdate | reverx/src/automata/State.java:72-77 | overwriting one transition changes the sum by the difference of the two frequencies |
| Automata.TransitionHash | reverx/src/automata/Transition.java:63-64 | the hash XORed with the destination's hash gives back the symbol's hash |
| Automata.TransitionEqualsNotTransitive | reverx/src/automata/Transition.java:67-75 | with the fallback to the symbol's `equals`, two transitions on one symbol to different states both equal that symbol but not each other |
| Automata.TransitionEqualsEquivalence | reverx/src/automata/Transition.java:67-75 | between transitions alone, `equals` is reflexive, symmetric and transitive whenever symbol equality is |
| Automata.CompareTo | reverx/src/automata/State.java:204-205 | `_id - o._id` in 32-bit arithmetic; while the difference fits, its sign orders the states by id |
| Automata.CompareToWraps | reverx/src/automata/State.java:204-205 | for ids far apart the wrapped difference has the wrong sign |
| Automata.NewTransition | reverx/src/automata/Transition.java:41-44 | a new transition stores the symbol and destination, with frequency 0 |
| Automata.TransitionHashConsistent | reverx/src/automata/Transition.java:62-75 | two transitions that `equals` (same destination, equal symbols) hash alike when the symbol hash agrees with symbol equality |
| Automata.RunAccepts | reverx/src/automata/Automaton.java:130-144 | every run that reads the whole sequence and satisfies the finality test makes the backtracking `accepts` true |
| Automata.AcceptsRun | reverx/src/automata/Automaton.java:130-144 | conversely, when `accepts` is true there is such a run |
| Automata.AcceptsImpliesPrefix | reverx/src/automata/Automaton.java:173-185 | `accepts` implies `acceptsPrefix` |
| Automata.DeadEndThrows | reverx/src/automata/Automaton.java:150-162 | the collecting `accepts` fails (index out of range) as soon as a run reads the whole sequence and ends on a non-final state |
| Automata.AllPathsRead | reverx/src/automata/Automaton.java:150-171 | every path `acceptsAllPaths` reports starts with the current stack and reads the rest of the sequence symbol by symbol |
| Automata.PathsFromAccepted | reverx/src/automata/Automaton.java:251-265 | every path `getListofPaths` lists extends the current path and is accepted |
| Automata.PathsFromComplete | reverx/src/automata/Automaton.java:251-265 | conversely, when no overflow is reported, every way from the state to a final state is listed as the current path followed by the symbols read |
| Automata.WalkStop | reverx/src/automata/Automaton.java:103-115 | the prefix walk stops where no transition's symbol equals the next symbol |
| Automata.InsertedAccepts | reverx/src/automata/Automaton.java:96-124 | after `addSequence(s)`, `accepts(s)` holds |
| Automata.InsertedFreq | reverx/src/automata/Automaton.java:87-124 | the frequencies grow by exactly the length of the sequence: one per followed transition and one per new transition |
| Automata.InsertedExtends | reverx/src/automata/Automaton.java:96-124 | every existing transition keeps its symbol and destination, and one new state is added per symbol the walk did not read |
| Automata.Automaton.constructor | reverx/src/automata/Automaton.java:62-66 | exactly one state, the initial one, non-final, without transitions and listed |
| Automata.Automaton.NewState | reverx/src/automata/State.java:46-50 | a new state is non-final, has no transitions, takes id `NEXT_ID`, and `NEXT_ID` grows by one |
| Automata.Automaton.SetFinal | reverx/src/automata/State.java:52-54 | only the state's finality changes |
| Automata.Automaton.SetId | reverx/src/automata/State.java:64-66 | only the state's id changes |
| Automata.Automaton.SetFreq | reverx/src/automata/Transition.java:54-56 | only that transition's frequency changes |
| Automata.Automaton.SetSymbol | reverx/src/automata/Transition.java:94-96 | only that transition's symbol changes |
| Automata.Automaton.SetState | reverx/src/automata/Transition.java:98-100 | only that transition's destination changes |
| Automata.Automaton.AppendNewSymbol | reverx/src/automata/Automaton.java:87-94 | a fresh listed state, reached from `state` by a new last transition of frequency 1 |
| Automata.Automaton.AddSequence | reverx/src/automata/Automaton.java:96-124 | the arena becomes `Inserted` of the old one: the walked transitions counted once more, the rest appended as a fresh listed chain, the last state final |
| Automata.Automaton.ResetAllStates | reverx/src/automata/Automaton.java:76-85 | the list becomes duplicate-free with the same states, sorted by old id, ids become 0..n-1 in list order and `NEXT_ID` n; nothing else changes |
| Automata.Automaton.AcceptsSequence | reverx/src/automata/Automaton.java:173-175 | `accepts(sequence)` from the initial state implies `acceptsPrefix(sequence)` |
| Automata.Automaton.AcceptsAllPaths | reverx/src/automata/Automaton.java:177-181 | every reported path is as long as the sequence and its transitions read the sequence symbol by symbol |
| Automata.Automaton.AcceptsPrefixAllPaths | reverx/src/automata/Automaton.java:187-191 | every reported path is as long as the sequence and its transitions read the sequence symbol by symbol |
| Automata.Automaton.GetListOfPaths | reverx/src/automata/Automaton.java:261-265 | when no overflow is reported, every way from the initial state to a final state has its symbols listed |
| Automata.Dedupe | reverx/src/automata/Automaton.java:78 | the `HashSet` copy holds each listed state once |
| Automata.SortById | reverx/src/automata/Automaton.java:79 | `Collections.sort`: the same states, ordered by id |
| JavaTypes.Wrap32 | src/utils/MutableInt.java:29-37 | the `int` result of `val++` / `val--`: congruent to the exact value mod 2^32, and equal to it whenever it fits in 32 bits |
| JavaTypes.CastByte | reverx/src/automata/RegEx.java:541 | the cast `(byte) b`: congruent mod 256 and unchanged for values in [-128, 127] |
| JavaTypes.Unsigned | src/utils/Convert.java:59 | `b & 0xFF` lies in [0, 255], is congruent to `b` mod 256, and casting it back gives `b` |
| JavaTypes.Rem | src/utils/Timer.java:88-90 | Java's `%`: quotient times divisor plus remainder is the dividend, and the remainder has the sign of the dividend |
| JavaTypes.Decimal | src/utils/Timer.java:93-97 | the decimal text that string concatenation gives an `int` is never empty |
| JavaTypes.ParseDigitsInverse | src/utils/Timer.java:93-97 | reading the printed digits back gives the number |
| JavaTypes.DecimalSign | src/utils/Timer.java:93-97 | the text starts with a minus sign exactly when the number is negative |
| JavaTypes.DecimalInjective | src/utils/Timer.java:93-97 | different numbers print differently |
| JavaTypes.Hex2 | reverx/src/automata/RegEx.java:562 | `String.format("%02X", b)`: exactly two upper-case hex digits whose value is the unsigned byte |
| JavaTypes.HexValueOfDigit | reverx/src/automata/RegEx.java:562 | each hex digit reads back as the value it was printed for |
| MutableInts.MutableInt.constructor | src/utils/MutableInt.java:13-15 | a new counter holds 0 |
| MutableInts.MutableInt.WithValue | src/utils/MutableInt.java:17-19 | a new counter holds the given value |
| MutableInts.MutableInt.SetValue | src/utils/MutableInt.java:25-27 | afterwards the counter holds the given value |
| MutableInts.MutableInt.Inc | src/utils/MutableInt.java:29-32 | the value grows by one with 32-bit wrap-around, and the same object is returned |
| MutableInts.MutableInt.Dec | src/utils/MutableInt.java:34-37 | the value shrinks by one with 32-bit wrap-around, and the same object is returned |
| MutableInts.IncThenDec | src/utils/MutableInt.java:29-37 | `dec()` after `inc()` restores the value, including across the wrap-around |
| MutableInts.IncWraps | src/utils/MutableInt.java:29-32 | `inc()` on the largest `int` gives the smallest |
| Utils.InBetween | src/utils/Utils.java:134-141 | the value clamped to [min, max]: unchanged inside the range, min below it, max above it, and always inside a non-empty range |
| Utils.FromJavaString | src/utils/Utils.java:152-157 | the result is the escape passes over the replacement list, in list order, and holds no tab, line feed or carriage return |
| Utils.ToJavaString | src/utils/Utils.java:164-169 | the result is the reverse replacement passes, in list order |
| Utils.EscapePassChars | src/utils/Utils.java:152-157 | one escape pass removes its special character and adds only a backslash and its letter |
| Utils.EscapedHasNoSpecials | src/utils/Utils.java:152-157 | no tab, line feed or carriage return survives `fromJavaString` |
| Utils.UnescapeEscape | src/utils/Utils.java:152-169 | an unescape pass undoes its escape pass when the input holds no escape of that letter |
| Utils.UnescapeCommutes | src/utils/Utils.java:152-169 | unescaping one letter commutes with escaping a different character |
| Utils.RoundTrip | src/utils/Utils.java:152-169 | `toJavaString(fromJavaString(s)) == s` when `s` holds no backslash followed by `t`, `n` or `r` |
| Timer.BreakDown | src/utils/Timer.java:86-90 | for a non-negative count, the hours, minutes below 60 and seconds below 60 add up to the count to within one second; for a negative count every part is at most 0 |
| Timer.BreakDownUnits | src/utils/Timer.java:86-90 | for a non-negative count the parts are `ms/3600000`, `ms/60000 % 60` and `ms/1000 % 60`, and there are leftover seconds exactly when `ms % 60000 >= 1000` |
| Timer.ToString | src/utils/Timer.java:85-98 | in terms of the count itself: hours and minutes from one hour on, minutes and seconds when at least a second is left over, and the raw milliseconds for whole minutes and for negative counts |
| Timer.WholeMinutesPrintRaw | src/utils/Timer.java:92-97 | a whole number of minutes under an hour prints as raw milliseconds, e.g. one minute as "60000ms" |
| Timer.ToStringExamples | src/utils/Timer.java:85-98 | one minute prints "60000ms", 61 s prints "1m 1s" and 3723 s prints "1h 2m" |
| Timer.ToStringFuzzy | src/utils/Timer.java:100-116 | under an hour: the minutes plus one when more than 30 seconds are left over, or the seconds when there is no whole minute |
| Timer.FuzzyRounds | src/utils/Timer.java:110-113 | from one minute to one hour the printed minutes are within half a minute of the elapsed time, with halves rounded down |
| Cells.ChainLength | reverx/src/bioinformatics/Cell.java:72-79 | a chain counts at least its own cell, and counts exactly one when there is no link |
| Cells.Size | reverx/src/bioinformatics/Cell.java:72-79 | the loop's count equals the length of the chain |
| Cells.GlobalSimilarity | reverx/src/bioinformatics/Cell.java:81-83 | the error (Java's `ArithmeticException`) happens exactly when the cell has no link; otherwise the result is the truncated quotient of the value by the number of links, and lies in [0, value] for a non-negative value |
| Cells.EmptyChain | reverx/src/bioinformatics/Cell.java:48-50 | the cell built by `Cell()` has value 0 and a chain of one, so its similarity is the division-by-zero error |
| Convert.ShiftsWrap | src/utils/Convert.java:39 | Java masks an `int` shift distance to 5 bits, so shifting by `8 * (i + 4)` bits is shifting by `8 * i` |
| Convert.SarBytesSign | src/utils/Convert.java:39 | the arithmetic right shift `>>` keeps the sign bit |
| Convert.CastByte | src/utils/Convert.java:39 | `(byte) x` keeps exactly the low 8 bits of `x` |
| Convert.UnsignedByteToInt | src/utils/Convert.java:58-60 | `b & 0xFF` is below 256 |
| Convert.UnsignedByteRoundTrip | src/utils/Convert.java:58-60 | casting `b & 0xFF` back to a byte gives `b` |
| Convert.ToByteInPlace | src/utils/Convert.java:34-40 | exactly the `min(sizeOfInt, 4)` cells from `beginIndex` receive the shifted-and-cast bytes; every other cell keeps its old value |
| Convert.StoredPrefix | src/utils/Convert.java:38-39 | the first `k` stored bytes, cell by cell |
| Convert.ToByte | src/utils/Convert.java:51-55 | a negative size is Java's `NegativeArraySizeException`; otherwise a fresh array whose contents are the bytes `toByteInPlace` stores into a zeroed array |
| Convert.ToByteFour | src/utils/Convert.java:51-55 | four bytes hold the integer, most significant byte first |
| Convert.ToByteThree | src/utils/Convert.java:51-55 | three bytes hold the integer's low three bytes, most significant first |
| Convert.ToByteTwo | src/utils/Convert.java:51-55 | two bytes hold the integer's low two bytes, most significant first |
| Convert.ToByteOne | src/utils/Convert.java:51-55 | one byte holds the integer's low byte |
| Convert.ToByteFive | src/utils/Convert.java:34-40 | with five bytes only four are written and the shift by 32 wraps to 0, so the result is the low byte followed by zeros |
| Convert.ToInteger | src/utils/Convert.java:83-90 | a non-positive size gives 0; otherwise the OR of the unsigned bytes, the last byte in the lowest lane |
| Convert.LanesFour | src/utils/Convert.java:83-90 | four bytes combine as `b0 << 24 \| b1 << 16 \| b2 << 8 \| b3`, each byte read unsigned |
| Convert.LanesThree | src/utils/Convert.java:83-90 | three bytes combine as `b0 << 16 \| b1 << 8 \| b2` |
| Convert.LanesTwo | src/utils/Convert.java:83-90 | two bytes combine as `b0 << 8 \| b1` |
| Convert.IntegerRoundTrip | src/utils/Convert.java:51-90 | `toInteger(toByte(x, 4), 0, 4) == x` for every `int` |
| Convert.ThreeIntegerRoundTrip | src/utils/Convert.java:51-90 | with three bytes the round trip keeps the low three bytes of `x` |
| Convert.TwoIntegerRoundTrip | src/utils/Convert.java:51-90 | with two bytes it keeps the low two bytes |
| Convert.OneIntegerRoundTrip | src/utils/Convert.java:51-90 | with one byte it keeps the low byte |
| Convert.BytesRoundTrip | src/utils/Convert.java:51-90 | `toByte(toInteger(s, 0, 4), 4) == s` for any four bytes |
| Convert.ToInt32 | src/utils/Convert.java:68-71 | the same `int` as `toInteger(bytes, 0, 4)`, and `toByte(_, 4)` gives the first four bytes back |
| Convert.ToLong | src/utils/Convert.java:92-99 | as written: the OR of the eight bytes, each shifted in `int` arithmetic (distance mod 32) and then sign-extended to `long` |
| Convert.ToLongStep | src/utils/Convert.java:95-96 | one loop step ORs in the next lane |
| Convert.ToLongCounterexample | src/utils/Convert.java:92-99 | the bytes 00 00 00 01 00 00 00 00 and 00 00 00 00 00 00 00 01 both decode to 1 |
| Convert.ToLongBigEndian | src/utils/Convert.java:92-99 | the intended decode: the eight bytes read big-endian as a `long` |
| Convert.ToLongBigEndianSeparates | src/utils/Convert.java:92-99 | the intended decode gives 2^32 and 1 for those two inputs |
| Convert.HexOf | src/utils/Convert.java:159-163 | two characters per byte |
| Convert.HexNibbleOfChar | src/utils/Convert.java:153 | every `HEXES` digit reads back as its nibble value |
| Convert.PairRoundTrip | src/utils/Convert.java:161 | a byte's two hex digits read back as its unsigned value |
| Convert.ParseHexOf | src/utils/Convert.java:155-164 | parsing the hex string gives back every byte's unsigned value |
| Convert.ToHexadecimalString | src/utils/Convert.java:155-164 | `null` gives `null`; otherwise the hex string of all the bytes, high nibble first |
| Convert.BitMask | src/utils/Convert.java:126 | `1 << bit` for a bit position of a byte is a non-zero mask below 256 |
| Convert.BitsOf | src/utils/Convert.java:125-132 | each byte becomes exactly eight binary digits |
| Convert.BitsOfList | src/utils/Convert.java:125-132 | the digits run from bit 7 down to bit 0 |
| Convert.BinaryOf | src/utils/Convert.java:121-135 | eight characters per byte |
| Convert.BitsRoundTrip | src/utils/Convert.java:121-135 | reading the eight digits as binary gives the byte's unsigned value |
| Convert.ToBinaryString | src/utils/Convert.java:121-135 | the loop's output is the bits of every byte, in array order |
| Convert.ConcatArrayList | src/utils/Convert.java:101-106 | the strings joined in list order |
| Convert.Sanitize | src/utils/Convert.java:108-115 | text without a backslash comes back unchanged |
| Convert.SanitizeFree | src/utils/Convert.java:108-115 | none of the five replacement passes changes backslash-free text |
| Traces.Escape | reverx/src/automata/RegEx.java:561-563 | `\x` followed by two upper-case hex digits whose value is the unsigned byte |
| Traces.EscapeInjective | reverx/src/automata/RegEx.java:561-563 | the byte can be read back from its escape |
| Traces.RenderAppend | reverx/src/traces/ByteChars.java:83-92 | rendering distributes over concatenation |
| Traces.RenderLength | reverx/src/traces/ByteChars.java:83-92 | a printable byte takes one character and any other byte takes four |
| Traces.RenderPrintable | reverx/src/traces/ByteChars.java:83-92 | printable bytes render as themselves |
| Traces.ByteChars.View | reverx/src/traces/ByteChars.java:61-63 | the viewed bytes number `length()` |
| Traces.ByteChars.Empty | reverx/src/traces/ByteChars.java:43-45 | an empty view at offset 0 over a fresh empty buffer |
| Traces.ByteChars.Of | reverx/src/traces/ByteChars.java:47-49 | a view of the whole array |
| Traces.ByteChars.Window | reverx/src/traces/ByteChars.java:51-55 | the buffer, offset and length are stored without any check |
| Traces.ByteChars.CharAt | reverx/src/traces/ByteChars.java:57-59 | the array-bounds error exactly when `off + idx` is outside the buffer; otherwise that byte read unsigned, which inside a valid view casts back to the viewed byte |
| Traces.ByteChars.SubSequence | reverx/src/traces/ByteChars.java:79-81 | a fresh view sharing the buffer, offset `off + start` and length `end - start` in 32-bit arithmetic; for indexes within the view it views exactly the slice |
| Traces.ByteChars.GetByteArray | reverx/src/traces/ByteChars.java:65-73 | the viewed bytes; the buffer itself when the view covers all of it, otherwise a fresh copy |
| Traces.ByteChars.ToString | reverx/src/traces/ByteChars.java:83-92 | printable bytes as characters and every other byte as its `\xHH` escape |
| Traces.ByteChars.EqualsAsWritten | reverx/src/traces/ByteChars.java:127-139 | as written: equal lengths, and the loop from `off` up to `len` finds no differing pair |
| Traces.ByteChars.Equals | reverx/src/traces/ByteChars.java:127-139 | the intended comparison: true exactly when the two views hold the same bytes, and then the hash codes agree |
| Traces.EqualsAsWrittenCounterexample | reverx/src/traces/ByteChars.java:133 | the views [1] and [2] at offset 1 of [0, 1] and [0, 2] pass the written loop although they differ |
| Traces.LoopAgreesAtOffsetZero | reverx/src/traces/ByteChars.java:133-135 | at offset 0 the written loop is exactly the comparison of the views |
| Traces.EqualViewsPassLoop | reverx/src/traces/ByteChars.java:133-135 | the written loop never rejects equal views |
| Traces.Concat | reverx/src/traces/ByteChars.java:141-146 | the `NegativeArraySizeException` exactly when the summed length passes the `int` range; otherwise a fresh view at offset 0 of the first view's bytes followed by the second's |
| PatternText.Quote | reverx/src/automata/RegEx.java:536-559 | the loop writes exactly the `Quoted` form of the data: printable runs inside `\Q…\E` and every other character as its `\xHH` escape |
| PatternText.AppendChunk | reverx/src/automata/RegEx.java:540-553 | one loop iteration appends the chunk for one character, and afterwards a `\Q` is open exactly when that character was printable |
| PatternText.QuoteStep | reverx/src/automata/RegEx.java:539-557 | what has been built plus what the rest of the data will add is always the whole quoted form |
| PatternText.QuoteHead | reverx/src/automata/RegEx.java:536-559 | the quoted form is never empty and starts with a backslash or, inside an open `\Q`, with the first character itself |
| PatternText.UnquoteQuote | reverx/src/automata/RegEx.java:435-437 | deleting every `\E` and `\Q` from a quoted pattern gives the data with non-printable characters written as `\xHH` |
| PatternText.UnquoteLiteralChunk | reverx/src/automata/RegEx.java:435-437 | deleting the quote marks from one printable character's chunk leaves that character |
| PatternText.UnquoteEscapeChunk | reverx/src/automata/RegEx.java:435-437 | deleting the quote marks from one escaped character's chunk leaves its escape |
| PatternText.Chars | reverx/src/traces/ByteChars.java:57-59 | one character per byte, each the byte read unsigned |
| PatternText.PlainChars | reverx/src/automata/RegEx.java:435-437 | for bytes read through `charAt`, `toString()` of the quoted pattern equals `ByteChars.toString()` of the bytes |
| PatternText.ReplaceQuoted | reverx/src/automata/RegEx.java:210-214 | a quoted pattern holds no `\E\Q`, so `concat`'s deletion leaves it unchanged |
| PatternText.QuoteNotE | reverx/src/automata/RegEx.java:536-559 | what `quote` writes after an open `\Q` never starts with `E` |
| PatternText.ConcatQuoteFrom | reverx/src/automata/RegEx.java:210-214 | joining a partly quoted first pattern with a quoted second pattern and deleting `\E\Q` gives the quoting of the joined data |
| PatternText.ConcatQuoted | reverx/src/automata/RegEx.java:210-214 | `concat(quote(a), quote(b))` has exactly the pattern `quote(a + b)` |
| PatternText.FindSep | reverx/src/automata/RegEx.java:49-52 | a found separator lies at or after the start and is `" "` or `"\r\n"` |
| PatternText.FindSepFirst | reverx/src/automata/RegEx.java:462 | the separator found is the first at or after the start; none is found only when there is none |
| PatternText.FindTag | reverx/src/automata/RegEx.java:45 | a found mark is a `\Q` or `\E` at or after the start |
| PatternText.FindTagFirst | reverx/src/automata/RegEx.java:45 | the mark found is the first one; none is found only when there is none |
| PatternText.FindQuote | reverx/src/automata/RegEx.java:45-81 | a found span starts with `\Q`, ends with `\E` and lies within the pattern |
| PatternText.FindQuoteFirst | reverx/src/automata/RegEx.java:45-81 | the span starts at the first `\Q` and ends at the first `\E` after it (the lazy `.*?`); none is found only when no `\Q` is followed by an `\E` |
| PatternText.FindToken | reverx/src/automata/RegEx.java:456-462 | `matcher.find(i)` of a token pattern: a found match is non-empty, within the text and at or after the start |
| PatternText.SplitMatch | reverx/src/automata/RegEx.java:462-469 | a match splits off the gap before it (when not empty) and the match itself, and splitting continues after it |
| PatternText.HeadTiles | reverx/src/automata/RegEx.java:465-467 | the gap and the match are non-empty and tile the text up to the match's end |
| PatternText.SplitTiles | reverx/src/automata/RegEx.java:456-473 | the pieces joined back give the message from the offset on |
| PatternText.SplitNonEmpty | reverx/src/automata/RegEx.java:456-473 | no piece is empty |
| PatternText.SplitSeparators | reverx/src/automata/RegEx.java:456-473 | each piece is a space, a CRLF, or holds no separator at all |
| RegExSymbols.NewOfData | reverx/src/automata/RegEx.java:66-69 | `new RegEx(data)`: the quoted pattern of the data, with the binary length set to the data's length |
| RegExSymbols.AllPrintable | reverx/src/automata/RegEx.java:157-162 | true exactly when every byte is printable |
| RegExSymbols.ClassifyMeaning | reverx/src/automata/RegEx.java:166-180 | the census loop finds a letter, a digit, the set of other bytes, and a repeat exactly when some other byte occurs twice (before letters or digits force the repeat flag) |
| RegExSymbols.RepeatsSnoc | reverx/src/automata/RegEx.java:177 | a repeat appears on a new byte exactly when it is an other byte already in the set |
| RegExSymbols.AscendingWalk | reverx/src/automata/RegEx.java:194 | the fixed enumeration of the other bytes lists each member once, in increasing order |
| RegExSymbols.GetGeneralizedRegEx | reverx/src/automata/RegEx.java:164-208 | the loop builds exactly the `Generalized` text of the census: brackets, `A-Za-z`, `0-9`, the other bytes, and a trailing `+` |
| RegExSymbols.TakeCensus | reverx/src/automata/RegEx.java:166-180 | the loop's flags and set are the census of the data |
| RegExSymbols.AppendMembers | reverx/src/automata/RegEx.java:194-199 | each other byte is appended as `\Q c \E` when printable and as `\xHH` otherwise |
| RegExSymbols.GeneralizedBrackets | reverx/src/automata/RegEx.java:184-202 | the result is bracketed exactly when the data has a letter, a digit, or more than one other byte |
| RegExSymbols.GeneralizedPlus | reverx/src/automata/RegEx.java:180-205 | the result ends in `+` exactly when the data has a letter, a digit, or a repeated other byte |
| RegExSymbols.GetBytes | reverx/src/automata/RegEx.java:90 | `getBytes()`: one byte per character, its low eight bits |
| RegExSymbols.Generalize | reverx/src/automata/RegEx.java:74-104 | `changed` holds exactly when the generalized pattern differs from the old one, and the symbol then carries that pattern; otherwise it is unchanged |
| RegExSymbols.GeneralizePattern | reverx/src/automata/RegEx.java:75-97 | the loop writes every text outside a `\Q…\E` span unchanged and every span's data generalized |
| RegExSymbols.AppendSpan | reverx/src/automata/RegEx.java:85-91 | one iteration appends the gap before the span and the span's data generalized |
| RegExSymbols.GeneralizeNoQuote | reverx/src/automata/RegEx.java:74-104 | a pattern without a quoted span is left as it is |
| RegExSymbols.GeneralizeQuotedData | reverx/src/automata/RegEx.java:66-104 | generalizing a symbol built from printable data gives the generalized text of its bytes |
| RegExSymbols.GeneralizeBinary | reverx/src/automata/RegEx.java:109-116 | it changes the symbol exactly when the length is positive and it was not yet generalized, and then the pattern is `.{n}+` |
| RegExSymbols.GeneralizeBinaryOnce | reverx/src/automata/RegEx.java:109-116 | a second binary generalization changes nothing |
| RegExSymbols.ConcatOfData | reverx/src/automata/RegEx.java:210-214 | concatenating the symbols of two data strings gives the pattern of the joined data |
| RegExSymbols.ConcatAllOfData | reverx/src/automata/RegEx.java:475-481 | folding `concat` over data symbols from the empty pattern gives the quoted form of all their data joined |
| RegExSymbols.ToStringOfData | reverx/src/automata/RegEx.java:435-437 | `toString()` of a data symbol is the data with non-printable characters as `\xHH` |
| RegExSymbols.ToStringOfBytes | reverx/src/automata/RegEx.java:435-437 | for bytes read through `charAt`, `toString()` equals `ByteChars.toString()` |
| RegExSymbols.EqualsHashCode | reverx/src/automata/RegEx.java:443-454 | equal symbols have equal hash codes, and equality looks at the pattern only |
| RegExSymbols.AppendHead | reverx/src/automata/RegEx.java:465-467 | one iteration adds a symbol for the gap (when non-empty) and one for the separator |
| RegExSymbols.Tokenize | reverx/src/automata/RegEx.java:456-473 | an index error exactly when the offset is outside the message; otherwise one symbol per piece of the split on `" "` and `"\r\n"` |
| RegExSymbols.TokenizePieces | reverx/src/automata/RegEx.java:456-473 | the pieces are non-empty, tile the message from the offset, and each is a separator or holds none |
| RegExObjects.Settings.constructor | src/automata/RegEx.java:46-50 | the static defaults: text mode, with tokens cut at every space or CRLF |
| RegExObjects.Settings.SetTextBasedSupport | src/automata/RegEx.java:75-82 | the flag takes the argument, and the token pattern becomes the quoted span in text mode and a single byte otherwise |
| RegExObjects.RegEx.OfPattern | src/automata/RegEx.java:58-60 | the symbol holds the given pattern |
| RegExObjects.RegEx.OfData | src/automata/RegEx.java:62-65 | the symbol holds the data quoted under the current text-mode flag |
| RegExObjects.RegEx.SetPattern | src/automata/RegEx.java:67-69 | the symbol afterwards holds the given pattern |
| RegExObjects.RegEx.ToString | src/automata/RegEx.java:111-113 | the pattern with every `\E` and `\Q` deleted |
| RegExObjects.RegEx.Clone | src/automata/RegEx.java:206-209 | a fresh symbol with the same pattern, equal to the original both ways and with the same hash code |
| RegExObjects.EqualsHashCode | src/automata/RegEx.java:119-130 | symbols equal by pattern have equal hash codes, and equality is symmetric |
| RegExObjects.SetThenGet | src/automata/RegEx.java:67-113 | after `setPattern(s)`, `getPattern()` is `s` and `toString()` is `s` without quote marks |
| RegExObjects.Concat | src/automata/RegEx.java:101-105 | a fresh symbol whose pattern is the two patterns joined with every `\E\Q` deleted |
| RegExObjects.QuoteBinary | src/automata/RegEx.java:172-200 | with text mode off every character is written as its four-character `\xHH` escape |
| RegExObjects.EscapesAt | src/automata/RegEx.java:172-200 | in binary mode the k-th escape stands for the k-th character's low byte |
| RegExObjects.UnquoteEscapes | src/automata/RegEx.java:111-113 | a binary-mode pattern has no quote marks, so `toString()` returns it unchanged |
| RegExObjects.ToStringOfData | src/automata/RegEx.java:111-113 | in text mode `toString()` of a data symbol is the data with non-printable characters as `\xHH` |
| RegExObjects.ConcatOfData | src/automata/RegEx.java:101-105 | in text mode concatenating two data symbols gives the pattern of the joined data |
| RegExObjects.AppendHead | src/automata/RegEx.java:141-143 | one iteration appends fresh symbols for the gap (when non-empty) and for the match, and keeps the earlier tokens |
| RegExObjects.Tokenize | src/automata/RegEx.java:132-149 | an index error exactly when the offset is outside the message; otherwise one fresh symbol per piece of the split under the current token pattern, each holding its piece quoted |
| RegExObjects.TokenizeTiles | src/automata/RegEx.java:132-149 | the pieces are non-empty and tile the message from the offset |
| RegExObjects.TokenizeBytes | src/automata/RegEx.java:80-149 | with text mode off every character becomes its own piece |
| RegExPaths.PathFromSound | reverx/src/automata/RegEx.java:511-531 | a path the search returns matches the message: each symbol matches a non-empty piece from where the last stopped, and the pieces end at the message's end |
| RegExPaths.PathFromComplete | reverx/src/automata/RegEx.java:511-531 | whenever some matching path exists, the depth-first search with backtracking finds one |
| RegExPaths.GetPathNone | reverx/src/automata/RegEx.java:501-507 | `getPath` returns `null` exactly when no path from the initial state matches the message |
| RegExPaths.MatchPathLength | reverx/src/automata/RegEx.java:511-531 | a matching path has at most as many transitions as the message has characters left |
| RegExPaths.GetConcatenatedPath | reverx/src/automata/RegEx.java:475-481 | the only error is the `NullPointerException` of iterating a missing path |
| RegExPaths.ConcatenatedPathOfData | reverx/src/automata/RegEx.java:475-481 | the error happens exactly when no path matches; when the path's symbols are data symbols, the result is the quoted form of their joined data |
| RegExOperations.AddedAllMeaning | src/automata/RegExOperations.java:206-213 | adding bytes one by one sets `alpha` exactly when a letter was added, `digit` exactly when a digit was, and puts every other byte into the set |
| RegExOperations.GeneralizeDataMeaning | src/automata/RegExOperations.java:186-204 | the class built from data has a letter, a digit and the other bytes exactly as the data does, `many` exactly for more than one byte, and `\S+` exactly when it is eligible |
| RegExOperations.JoinLattice | src/automata/RegExOperations.java:331-349 | the static merge is commutative, associative and idempotent, and a second `generalize()` changes nothing |
| RegExOperations.CharClassAsWrittenWord | src/automata/RegExOperations.java:365-388 | as written, the group is `w+`, never `w`, so `\w+` builds the same class as `\S+` and prints as `\S+` |
| RegExOperations.CharClassRoundTrip | src/automata/RegExOperations.java:365-388 | with the class letter compared as intended, `\w+` and `\S+` each print back as themselves |
| RegExOperations.BracketedExpression.constructor | src/automata/RegExOperations.java:163-170 | a new class has no flag set and no other byte |
| RegExOperations.BracketedExpression.OfClass | src/automata/RegExOperations.java:365-388 | a character class built from `\w+` or `\S+` holds the intended flags |
| RegExOperations.BracketedExpression.AddByte | src/automata/RegExOperations.java:206-213 | a letter sets `alpha`, a digit sets `digit`, and any other byte joins the set |
| RegExOperations.BracketedExpression.Generalize | src/automata/RegExOperations.java:343-349 | the same object is returned, with `\S+` set when the class is eligible |
| RegExOperations.BracketedExpression.ToString | src/automata/RegExOperations.java:289-326 | the printed class: `\S+`, else `\w+` for repeated letters and digits alone, else the bracket with ranges, other bytes and a `+` when `many` |
| RegExOperations.WriteFlags | src/automata/RegExOperations.java:289-326 | the builder's output is exactly the printed class |
| RegExOperations.AppendOthers | src/automata/RegExOperations.java:307-315 | each other byte is appended as itself, as `\Q c \E`, or as `\xHH` |
| RegExOperations.GeneralizeBytes | src/automata/RegExOperations.java:186-204 | a fresh class whose flags are the generalization of the data |
| RegExOperations.MergeBrackets | src/automata/RegExOperations.java:331-341 | a fresh class with every flag or-ed and the two sets joined |
| RegExOperations.FindEscape | src/automata/RegExOperations.java:255-263 | the first `\xHH` at or after the start; none when there is none |
| RegExOperations.FindOperand | src/automata/RegExOperations.java:394-406 | the first place at or after the start where one of the four token patterns matches, with the match's end |
| RegExOperations.MatchClassified | src/automata/RegExOperations.java:421-445 | a matched text is always classified as quoted, bracketed, character class or escape, never as plain |
| RegExOperations.EscapedRoundTrip | src/automata/RegExOperations.java:120-137 | parsing the escape a byte prints as gives back the byte |
| RegExOperations.EscapedTextRoundTrip | src/automata/RegExOperations.java:120-137 | an upper-case escape parses to a byte that prints back as the same text |
| RegExOperations.IndexOf | src/automata/RegExOperations.java:155 | `indexOf`: the first occurrence at or after the start; none exactly when there is none |
| RegExOperations.HasRange | src/automata/RegExOperations.java:154-161 | as written: `replace(first_index, range.length(), "")` uses the length as the end index, so the only error is the index exception when the range is found after position 3 |
| RegExOperations.HasRangeCases | src/automata/RegExOperations.java:154-161 | at the front the range is removed; "xA-Z" leaves "xZ"; "abcdA-Z" throws |
| RegExOperations.HasRangeIntended | src/automata/RegExOperations.java:154-161 | the intended test: true exactly when the range occurs, and then the result is the text with its first occurrence removed; otherwise the text is unchanged |
| RegExOperations.HasRangeIntendedCases | src/automata/RegExOperations.java:154-161 | on the three inputs the intended test gives "rest", "x" and "abcd" where the written one gives "rest", "xZ" and an exception |
| RegExOperations.QuotedStep | src/automata/RegExOperations.java:240-250 | one iteration of the quoted-span loop keeps the text before the span and adds the span's bytes |
| RegExOperations.QuotedDone | src/automata/RegExOperations.java:251-254 | after the loop the kept text and the added bytes are the text outside and the data inside the quoted spans |
| RegExOperations.EscapedStep | src/automata/RegExOperations.java:263-271 | one iteration of the escape loop keeps the text before the escape and adds the byte it stands for |
| RegExOperations.EscapedDone | src/automata/RegExOperations.java:272-275 | after the loop the kept text and the added bytes are the text outside the escapes and their bytes |
| RegExOperations.AddedAllAppend | src/automata/RegExOperations.java:206-213 | adding `a + b` is adding `a` and then `b` |
| RegExOperations.AddAll | src/automata/RegExOperations.java:278-280 | the class afterwards is the old one with every byte added in order |
| RegExOperations.TakeQuoted | src/automata/RegExOperations.java:236-254 | returns the text outside the quoted spans and adds the bytes inside them |
| RegExOperations.TakeEscaped | src/automata/RegExOperations.java:256-275 | returns the text outside the escapes and adds the bytes they stand for |
| RegExOperations.AddContent | src/automata/RegExOperations.java:236-280 | the class receives the quoted bytes, then the escaped bytes, then the low bytes of what is left |
| RegExOperations.FinishContent | src/automata/RegExOperations.java:236-285 | the same, and then `\S+` is set exactly when the class is eligible |
| RegExOperations.ParseBracket | src/automata/RegExOperations.java:215-287 | `new BracketedExpression(text)`: the range test's exception when it throws, otherwise a fresh class holding the parsed flags |
| RegExOperations.Shapes | src/automata/RegExOperations.java:399-455 | one shape per token |
| RegExOperations.TokenText | src/automata/RegExOperations.java:59-326 | `toString()` of a token is the text of its shape |
| RegExOperations.AppendText | src/automata/RegExOperations.java:463-464 | after appending token `k` the buffer holds the texts of tokens `start` to `k` |
| RegExOperations.ToPattern | src/automata/RegExOperations.java:461-466 | the index exception exactly when the loop runs and a bound lies outside the list; otherwise the texts of tokens `start` to `end - 1`, or "" when `start >= end` |
| RegExOperations.ToPatternFrom | src/automata/RegExOperations.java:457-459 | the index exception exactly for a negative start; otherwise the texts of the tokens from `start` on, or "" past the end |
| RegExOperations.MakeToken | src/automata/RegExOperations.java:421-447 | the token for a matched text, or exactly the error its constructor throws; a bracketed token holds a fresh class |
| RegExOperations.ProcessMatch | src/automata/RegExOperations.java:406-448 | one iteration appends the plain gap token (when non-empty) and the match's token, with fresh class objects, or fails with the constructor's error |
| RegExOperations.ProcessFromMatch | src/automata/RegExOperations.java:406-448 | processing from a match is the gap and the match's token in front of processing from the match's end |
| RegExOperations.Process | src/automata/RegExOperations.java:399-455 | the error exactly when some token's constructor throws, and otherwise tokens with distinct fresh class objects whose shapes are the specification's |
| RegExOperations.ProcessCuts | src/automata/RegExOperations.java:399-455 | `process` cuts the text into non-empty adjacent pieces that tile it, and its tokens are those of the pieces |
| RegExOperations.PieceShapesMeaning | src/automata/RegExOperations.java:399-455 | processing succeeds exactly when every piece's token can be built, and then the k-th token is the k-th piece's |
| RegExOperations.PieceShapesFirstError | src/automata/RegExOperations.java:399-455 | on failure, the error is that of the first piece whose token cannot be built |
| RegExOperations.ShapeTextRoundTrip | src/automata/RegExOperations.java:399-455 | a matched or plain text of byte-sized characters without `[` prints back as itself |
| RegExOperations.ProcessRoundTrip | src/automata/RegExOperations.java:399-466 | for a text of byte-sized characters with no bracket class and upper-case escapes, `toPattern(process(m), 0)` gives back `m` |
| RegExOperations.GeneralizeDataAdmits | src/automata/RegExOperations.java:186-204 | the class generalized from data admits every byte of the data |
| RegExOperations.GeneralizedWidens | src/automata/RegExOperations.java:343-349 | `generalize()` of a class admits every byte the class admitted |
| RegExOperations.MergeAdmits | src/automata/RegExOperations.java:471-488 | the merged class admits exactly what either operand admits, and repeats when either does |
| RegExOperations.MergeCommutes | src/automata/RegExOperations.java:471-488 | merging is independent of the order of the two tokens |
| RegExOperations.MergeKeepsBytes | src/automata/RegExOperations.java:471-488 | the merge admits every byte of a plain, quoted or escaped operand |
| RegExOperations.GeneralizeToken | src/automata/RegExOperations.java:65-349 | a bracketed token generalizes its own class in place and returns it; any other token yields a fresh class from its bytes |
| RegExOperations.MergeTokens | src/automata/RegExOperations.java:471-488 | a fresh class equal to the merged shapes; two classes are left untouched, while a lone class operand is generalized in place |
| Determinization.Least | reverx/src/automata/Operations.java:47-67 | the smallest member of a non-empty set, used to list a union's states in a fixed order |
| Determinization.StateListMembers | reverx/src/automata/Operations.java:93 | the listed states of a union are exactly its members |
| Determinization.OutgoingMembers | reverx/src/automata/Operations.java:93-94 | the outgoing transitions of the listed states are exactly those leaving some listed state |
| Determinization.Find | reverx/src/automata/Operations.java:97 | `defined_symbols.get(key)`: the first group whose key is equal to the symbol, and none exactly when no key is |
| Determinization.GroupsSnoc | reverx/src/automata/Operations.java:94-106 | adding one more transition updates the groups as one pass of the inner loop does |
| Determinization.ImageOfMembers | reverx/src/automata/Operations.java:102 | a state is in a symbol's image exactly when some transition with an equal symbol leads to it |
| Determinization.ImageSnoc | reverx/src/automata/Operations.java:102-103 | one more transition adds its destination to the image and its frequency to the sum when its symbol is equal |
| Determinization.AddNew | reverx/src/automata/Operations.java:98-106 | a transition with a new symbol opens a group, keeping the keys distinct and every group exact |
| Determinization.AddOld | reverx/src/automata/Operations.java:97-106 | a transition with a known symbol joins that group, keeping the keys distinct and every group exact |
| Determinization.GroupsCorrect | reverx/src/automata/Operations.java:90-107 | the groups have pairwise different keys, cover every symbol seen, and each holds exactly its symbol's image, summed frequency and finality |
| Determinization.GroupsOfCorrect | reverx/src/automata/Operations.java:90-107 | every group of a set of states is non-empty, lies inside the automaton, and is final exactly when one of its members is |
| Determinization.GroupsReached | reverx/src/automata/Operations.java:93-106 | when every member of a union is reachable from the initial state, so is every member of each of its groups |
| Determinization.ReachableStep | reverx/src/automata/Operations.java:102 | a transition out of a reachable state leads to a reachable state |
| Determinization.DefinedSymbols | reverx/src/automata/Operations.java:90-107 | the loop over the union's states and their transitions builds exactly the groups of the union |
| Determinization.AddTransitions | reverx/src/automata/Operations.java:94-106 | the inner loop extends the groups by each transition in turn |
| Determinization.InvAdd | reverx/src/automata/Operations.java:118-123 | creating the new state for an unseen union keeps the construction invariant and only extends the memo |
| Determinization.InvPush | reverx/src/automata/Operations.java:127-129 | adding a transition to the state under construction keeps the invariant |
| Determinization.InvFinish | reverx/src/automata/Operations.java:109-131 | a state whose transitions are all added is finished without breaking the invariant |
| Determinization.Rec | reverx/src/automata/Operations.java:88-132 | `determinization_rec`: keeps the invariant, only extends the memo and the key list, finishes the current state and every state it creates, and leaves other unfinished states alone |
| Determinization.Connect | reverx/src/automata/Operations.java:112-130 | after the loop over the groups the state has one transition per group, each to the memo's state for that group |
| Determinization.Link | reverx/src/automata/Operations.java:116-129 | one iteration: the group gets its state (old or new) and the current state gains one transition to it carrying the group's key and summed frequency |
| Determinization.Enter | reverx/src/automata/Operations.java:118-126 | a union not yet in the memo gets a new state with the union's finality, and the recursion finishes it and everything it creates |
| Determinization.Indices | reverx/src/automata/Automaton.java:76-85 | the identity list `0..n-1` |
| Determinization.AllDone | reverx/src/automata/Operations.java:69-86 | when nothing is left unfinished, the result is a full subset construction |
| Determinization.DeterminizedFinals | reverx/src/automata/Operations.java:104-120 | a new state is final only if some state reachable from the old initial state is final |
| Determinization.Construct | reverx/src/automata/Operations.java:69-86 | the new automaton is the subset construction from the old initial state, its ids follow the old counter, and it accepts exactly the old language and prefix language (the full language when the old initial state is not final) |
| Determinization.Determinize | reverx/src/automata/Operations.java:69-86 | the automaton becomes the subset construction with initial state 0 and all its states listed; its prefix language is unchanged, and so is its language when the old initial state is not final |
| Determinization.ImageMembers | reverx/src/automata/Operations.java:93-106 | a state is in the image of a union under a symbol exactly when some member has a transition with an equal symbol to it |
| Determinization.ImageCongruent | reverx/src/automata/Operations.java:97 | equal symbols have the same image and the same summed frequency |
| Determinization.DeterminizedDeterministic | reverx/src/automata/Operations.java:112-130 | no state of the result has two transitions with equal symbols |
| Determinization.DeterminizedEdges | reverx/src/automata/Operations.java:112-130 | each new transition leads to the union that is the image of its source union under its symbol, and carries that image's summed frequency |
| Determinization.StateGroups | reverx/src/automata/Operations.java:112-130 | each new state has exactly one transition per group of its union, in group order |
| Determinization.DeterminizedNoFollow | reverx/src/automata/Operations.java:112-130 | a symbol that no member of the union can follow has no transition in the new state |
| Determinization.DeterminizedFollow | reverx/src/automata/Operations.java:112-130 | a symbol that some member can follow has a transition in the new state, to the image union |
| Determinization.DeterminizedAccepts | reverx/src/automata/Operations.java:69-132 | a new state accepts a sequence exactly when some member of its union does |
| Determinization.DeterminizedLanguage | reverx/src/automata/Operations.java:69-86 | the result accepts from state 0 exactly the sequences the old automaton accepts from its initial state |
| Determinization.DeterminizedDropsEmpty | reverx/src/automata/Operations.java:74-79 | the new initial state is never final, so when the old initial state was final the empty sequence stops being accepted |
| StateMapping.Root | reverx/src/automata/Operations.java:439-446 | the representative of a state is never merged away itself |
| StateMapping.RootFixed | reverx/src/automata/Operations.java:439-446 | a state is its own representative exactly when it has not been merged away |
| StateMapping.RootAbove | reverx/src/automata/Operations.java:439-446 | following the map from a state merged later never leads back to an earlier one, so the walk ends |
| StateMapping.GetMergedState | reverx/src/automata/Operations.java:439-446 | the loop stops at the state's representative |
| StateMapping.PutRanked | reverx/src/automata/Operations.java:493 | `merged_mapping.put(state1, state0)` between two representatives keeps the map free of cycles |
| StateMapping.PutRoot | reverx/src/automata/Operations.java:493 | after the put, every state whose representative was `state1` has `state0` instead, and no other representative changes |
| StateMapping.SamePairIgnoresOrder | reverx/src/automata/Operations.java:432-434 | `samePairOfStates` holds exactly when the two pairs name the same set of states |
| Merging.AbsorbTransitions | reverx/src/automata/Operations.java:472-486 | the loop over `state1`'s transitions computes exactly `Absorb`: a transition whose symbol `state0` already reads adds its frequency (and may queue the destination pair), any other is appended |
| Merging.AbsorbTransition | reverx/src/automata/Operations.java:474-485 | one iteration of that loop computes `AbsorbOne` |
| Merging.AbsorbFreq | reverx/src/automata/Operations.java:477-478 | absorbing keeps the total outgoing frequency: the merged list sums to the frequencies of both states |
| Merging.AbsorbDefines | reverx/src/automata/Operations.java:474-485 | after absorbing, the merged state reads a symbol exactly when one of the two states read it |
| Merging.AbsorbDests | reverx/src/automata/Operations.java:479-485 | absorbed transitions and queued states stay within any set holding both states' destinations, and states are queued in pairs |
| Merging.AbsorbPushed | reverx/src/automata/Operations.java:479-483 | every queued pair is the two destinations of transitions of `state0` and `state1` on equal symbols |
| Merging.RedirectTransitions | reverx/src/automata/Operations.java:510-514 | the loop retargets exactly the transitions into `search_for` to `replace_with` |
| Merging.ReplaceAll | reverx/src/automata/Operations.java:498-518 | the list has every `search_for` replaced by `replace_with`; the transitions of the listed states are redirected only when `replace_in_transitions` holds |
| Merging.RedirectFreq | reverx/src/automata/Operations.java:510-514 | redirecting destinations leaves the outgoing frequencies unchanged |
| Merging.RedirectDefines | reverx/src/automata/Operations.java:510-514 | redirecting destinations leaves the symbols a state reads unchanged |
| Merging.ReplaceMembers | reverx/src/automata/Operations.java:505-507 | after replacement each old entry appears redirected, and only `replace_with` or entries other than `search_for` remain |
| Merging.StepMerged | reverx/src/automata/Operations.java:468-486 | the merged state is final when either state was, takes the smaller id, sums both frequencies and reads the union of their symbols |
| Merging.StepOthers | reverx/src/automata/Operations.java:468-492 | a merge step leaves the finality, id and frequencies of every other state unchanged |
| Merging.StepNoReferences | reverx/src/automata/Operations.java:489-492 | after a step, `state1` is no longer the initial state, nor listed, nor queued, nor the destination of a listed state's transition |
| Merging.StepState | reverx/src/automata/Operations.java:468-492 | the state record after a step: `state0` holds the absorbed, redirected transitions of both; every other state has its transitions redirected |
| Merging.StepCanonical | reverx/src/automata/Operations.java:488-493 | a step followed by `merged_mapping.put(state1, state0)` keeps the automaton canonical: listed states are representatives and transitions lead to listed states |
| Merging.MergeOne | reverx/src/automata/Operations.java:466-493 | the body of one loop pass, once the pair is resolved and distinct, computes exactly `Step` |
| Merging.PutRoots | reverx/src/automata/Operations.java:493 | after the put, each state's representative is the old one with `state1` redirected to `state0`, and there is one representative fewer |
| Merging.RootRedirected | reverx/src/automata/Operations.java:493 | looking up a redirected state after the put gives the redirected old representative |
| Merging.ClassFreqPut | reverx/src/automata/Operations.java:478-493 | after the put, the summed original frequency of `state0`'s class is the sum of both classes |
| Merging.HasFinalPut | reverx/src/automata/Operations.java:469-493 | after the put, a class holds an originally final state exactly when it did before or it is `state0`'s class and `state1`'s class did |
| Merging.HistoryStart | reverx/src/automata/Operations.java:453-455 | before the loop each listed state trivially stands for itself |
| Merging.HistoryStep | reverx/src/automata/Operations.java:456-494 | one loop pass keeps the history: each listed state is final, reads symbols and sums frequencies exactly as the original states it represents, and each transition is a redirected original one |
| Merging.DrainDone | reverx/src/automata/Operations.java:455-496 | when the queue is empty, both states of every originally queued pair share a representative |
| Merging.FaithfulStep | reverx/src/automata/Operations.java:479-493 | a step joins nothing beyond what any congruence relating the queued pairs relates |
| Merging.QueueJoined | reverx/src/automata/Operations.java:479-491 | the pairs queued by a step, after replacement, are related by any congruence relating the merged pair |
| Merging.AgreeOne | reverx/src/automata/Operations.java:453-496 | each original state accepts the same symbol sequences as its representative in the merged automaton |
| Merging.MergedLanguage | reverx/src/automata/Operations.java:453-496 | when the merged classes lie within a congruence of language-equivalent states, the merged automaton accepts exactly what the original accepted |
| Merging.DrainAll | reverx/src/automata/Operations.java:455-495 | the whole loop on values: the queue drains, the automaton stays canonical, the history holds and no join exceeds the congruences |
| Merging.MergeQueue | reverx/src/automata/Operations.java:453-496 | the queued merge on the automaton: it stays canonical with the same number of states and next id, each queued pair ends up joined, the history holds and every class lies within every congruence relating the queued pairs |
| Merging.Relist | reverx/src/automata/Operations.java:428 | rebuilding `_all_states` through a set removes duplicates and keeps exactly the same states |
| Merging.StartJoins | reverx/src/automata/Operations.java:424-427 | merging a pair joins only states related by every congruence relating the pair |
| Merging.MergeArena | reverx/src/automata/Operations.java:422-429 | merging two states on values gives a canonical automaton without duplicates in which the two are joined, with its history and no excess joins |
| Merging.Merge | reverx/src/automata/Operations.java:422-429 | the same on the automaton, leaving its next id unchanged |
| Minimization.DistinctStatesTable.constructor | reverx/src/automata/Operations.java:188-208 | the new table marks exactly the pairs of listed states that differ in finality; every other pair is unmarked with no dependants |
| Minimization.CellAtSymmetric | reverx/src/automata/Operations.java:236-242 | `get(x, y)` and `get(y, x)` read the same cell, the one stored for the smaller index first |
| Minimization.WithMark | reverx/src/automata/Operations.java:253-259 | marking changes exactly the one named cell to marked |
| Minimization.DistinctStatesTable.MarkCell | reverx/src/automata/Operations.java:253-259 | `mark_cell` marks the cell of the pair in either argument order and nothing else |
| Minimization.AddDep | reverx/src/automata/Operations.java:285-287 | adding a dependant keeps the old ones, includes the new one, and adds no duplicate |
| Minimization.DistinctStatesTable.AddToList | reverx/src/automata/Operations.java:279-290 | `add_to_list` records the dependant in the unmarked cell of the pair, in either argument order |
| Minimization.DistinctStatesTable.MarkAndPropagate | reverx/src/automata/Operations.java:265-276 | marking a distinguishable pair leaves it marked, keeps every mark sound and marks every dependant recorded in a newly marked cell |
| Minimization.DistinctStatesTable.Propagate | reverx/src/automata/Operations.java:269-272 | the loop over a cell's dependants marks all of them, keeping every mark sound |
| Minimization.MarkPrepared | reverx/src/automata/Operations.java:265-268 | marking a pair known to be distinguishable keeps the table sound and leaves fewer unmarked cells |
| Minimization.DistSym | reverx/src/automata/Operations.java:236-242 | telling two states apart does not depend on their order |
| Minimization.SuccDist | reverx/src/automata/Operations.java:366-370 | two states whose successors on a common symbol can be told apart can be told apart themselves |
| Minimization.MarkedDist | reverx/src/automata/Operations.java:246-248 | a marked pair holds states that can be told apart |
| Minimization.IndexOf | reverx/src/automata/Operations.java:357-358 | `indexOf` gives the first position of the state, or -1 exactly when the state is not listed |
| Minimization.ScanTransition | reverx/src/automata/Operations.java:331-374 | for one transition of `q0`, the pair ends marked or linked: `q1` reads the symbol and the destination pair is the same, unmarked with the pair recorded as its dependant, or marked |
| Minimization.ScanSecondTransition | reverx/src/automata/Operations.java:331-350 | for one transition of `q1`, the pair ends marked or `q0` reads its symbol too |
| Minimization.ScanFirst | reverx/src/automata/Operations.java:329-374 | the first transition loop leaves the pair marked or linked on every transition of `q0` |
| Minimization.ScanSecond | reverx/src/automata/Operations.java:329-374 | the second transition loop leaves the pair settled: marked, or linked on every symbol of either state |
| Minimization.AnalyzePair | reverx/src/automata/Operations.java:323-376 | analysing an unmarked pair settles it and keeps every mark sound |
| Minimization.MarkPair | reverx/src/automata/Operations.java:344-372 | marking a distinguishable pair through `mark_and_propagate` leaves it marked and only moves the table forward |
| Minimization.AnalyzeRow | reverx/src/automata/Operations.java:319-377 | the column loop settles every pair of the row |
| Minimization.Analyze | reverx/src/automata/Operations.java:305-378 | the row loop leaves the table consistent: every unmarked pair has, on every symbol, successors that are equal or unmarked |
| Minimization.RelatedSym | reverx/src/automata/Operations.java:236-248 | the relation "equal or unmarked" is symmetric |
| Minimization.RelatedFinal | reverx/src/automata/Operations.java:196-200 | states related by the analysed table agree on finality |
| Minimization.RelatedNotDist | reverx/src/automata/Operations.java:305-378 | on a deterministic automaton, states left unmarked cannot be told apart at any depth |
| Minimization.MarkedIffDistinguishable | reverx/src/automata/Operations.java:305-378 | after the analysis a pair is marked exactly when its states can be told apart |
| Minimization.UnmarkedAlike | reverx/src/automata/Operations.java:305-378 | states of an unmarked pair accept the same suffixes |
| Minimization.SameLanguageTrans | reverx/src/automata/Operations.java:382-402 | accepting the same suffixes is transitive, so merging chains of unmarked pairs stays sound |
| Minimization.IndistinctCongruence | reverx/src/automata/Operations.java:382-402 | on a deterministic automaton, "cannot be told apart" is a congruence, so the merges it queues stay within it |
| Minimization.MergeCell | reverx/src/automata/Operations.java:387-401 | one column of the merge loop: the pair is merged unless already joined or marked, keeping the automaton canonical and the classes within the indistinguishable states |
| Minimization.MergeRow | reverx/src/automata/Operations.java:382-402 | one row of the merge loop joins every unmarked pair of the row |
| Minimization.MergeEquivalent | reverx/src/automata/Operations.java:380-402 | the merge loop gives every unmarked pair one representative and keeps the history of the merged states |
| Minimization.IndistinguishableJoined | reverx/src/automata/Operations.java:380-402 | states that cannot be told apart end up with one representative |
| Minimization.ExactLanguage | reverx/src/automata/Operations.java:380-402 | with an exact table, only states accepting the same suffixes are joined and the language is kept |
| Minimization.MergeAnalyzed | reverx/src/automata/Operations.java:380-402 | the merge phase joins all indistinguishable states and, on a deterministic automaton without repeated states, only those, keeping the language |
| Minimization.MinimizeArena | reverx/src/automata/Operations.java:295-409 | minimization on values: same size, canonical, a duplicate-free list of the representatives, indistinguishable states joined and, on a deterministic automaton, the language kept |
| Minimization.Minimize | reverx/src/automata/Operations.java:295-409 | the same on the automaton, leaving its next id unchanged |
| MooreMachine.CollectSymbols | reverx/src/StateMachineMoore.java:126-128 | the loop collects exactly the symbols the state's transitions read |
| MooreMachine.MsgTypesInCommon | reverx/src/StateMachineMoore.java:123-138 | the count is the size of the intersection of both states' symbol sets, positive exactly when they share a symbol |
| MooreMachine.CommonShared | reverx/src/StateMachineMoore.java:123-138 | sharing a symbol is the same as a non-empty intersection of the symbol sets |
| MooreMachine.CommonSymmetric | reverx/src/StateMachineMoore.java:123-138 | the count and the sharing test do not depend on the order of the two states |
| MooreMachine.GetPartition | reverx/src/StateMachineMoore.java:141-147 | the first partition holding the state, or none exactly when no partition holds it |
| MooreMachine.FindPartition | reverx/src/StateMachineMoore.java:141-147 | the loop returns that first partition |
| MooreMachine.FirstOverlap | reverx/src/StateMachineMoore.java:299-309 | the first partition sharing a state with the set, or none exactly when no partition does |
| MooreMachine.HoldsAny | reverx/src/StateMachineMoore.java:301-305 | the inner loop answers whether the partition holds some state of the set |
| MooreMachine.FindExisting | reverx/src/StateMachineMoore.java:298-309 | the nested search finds that first overlapping partition |
| MooreMachine.GetAllSets | reverx/src/StateMachineMoore.java:290-324 | the loop computes `AllSets`: each set is added to the first partition it overlaps, or opens a new one |
| MooreMachine.AllSetsUnion | reverx/src/StateMachineMoore.java:290-324 | the partitions hold exactly the states of the input sets |
| MooreMachine.AllSetsCover | reverx/src/StateMachineMoore.java:290-324 | every input set lies inside one partition, and there are no more partitions than sets |
| MooreMachine.AllSetsGrow | reverx/src/StateMachineMoore.java:296-321 | later sets only enlarge the partitions built from earlier ones |
| MooreMachine.AllSetsDoNotFuse | reverx/src/StateMachineMoore.java:299-318 | a set overlapping two partitions joins only the first, so `{1}, {2}, {1, 2}` gives `{1, 2}` and `{2}`: the partitions may overlap |
| MooreMachine.AllSetsSmall | reverx/src/StateMachineMoore.java:290-324 | the partitions hold two states somewhere exactly when some input set does |
| MooreMachine.Record | reverx/src/StateMachineMoore.java:338-344 | `to_merge.get`/`put`/`add` records the destination under its symbol |
| MooreMachine.InsertLookup | reverx/src/StateMachineMoore.java:338-344 | after recording, a symbol's set gains the destination when it is the recorded symbol and is otherwise unchanged |
| MooreMachine.CollectGroups | reverx/src/StateMachineMoore.java:335-346 | the nested loop builds the symbol-to-destinations map `CollectAll` |
| MooreMachine.CollectAllLookup | reverx/src/StateMachineMoore.java:335-346 | a symbol's set holds a state exactly when some listed state's transition on that symbol leads to it |
| MooreMachine.ValuesSmall | reverx/src/StateMachineMoore.java:335-348 | no set of destinations has two states exactly when no symbol leads to two different states |
| MooreMachine.SmallNothingToMerge | reverx/src/StateMachineMoore.java:160-163 | `mergeEachSet` has a set to merge exactly when some set holds two states |
| MooreMachine.MergeSet | reverx/src/StateMachineMoore.java:166-180 | merging one set gives all its states one representative and joins nothing beyond what that forces |
| MooreMachine.MergeEachSetArena | reverx/src/StateMachineMoore.java:153-184 | on values: the result is true exactly when some set holds two states; every set is joined with nothing beyond; a false result leaves the automaton unchanged |
| MooreMachine.MergeEachSet | reverx/src/StateMachineMoore.java:153-184 | the same on the automaton, leaving its next id unchanged |
| MooreMachine.PartitionsListed | reverx/src/StateMachineMoore.java:335-348 | every state `generalizeI` would merge is listed |
| MooreMachine.PartitionsJoinSymbols | reverx/src/StateMachineMoore.java:347-348 | once the partitions are merged, all destinations of one symbol share a representative |
| MooreMachine.GeneralizeIArena | reverx/src/StateMachineMoore.java:329-350 | on values: true exactly when some symbol leads to two different states; then all destinations of each symbol are joined and the history holds; false changes nothing |
| MooreMachine.GeneralizeI | reverx/src/StateMachineMoore.java:329-350 | the same on the automaton, leaving its next id unchanged |
| MooreMachine.Seed | reverx/src/StateMachineMoore.java:249-255 | the partition holding `s0` exists afterwards and earlier partitions are unchanged |
| MooreMachine.SeedPartition | reverx/src/StateMachineMoore.java:249-255 | the code finds or creates the partition holding `s0` as `Seed` does |
| MooreMachine.Pair | reverx/src/StateMachineMoore.java:270-279 | comparing `s0` with `s1` only enlarges `s0`'s partition, and puts `s1` in it when the two share a symbol |
| MooreMachine.ComparePair | reverx/src/StateMachineMoore.java:259-281 | one inner iteration computes `Pair` |
| MooreMachine.Inner | reverx/src/StateMachineMoore.java:257-282 | the inner loop only enlarges `s0`'s partition |
| MooreMachine.CompareLater | reverx/src/StateMachineMoore.java:257-282 | the inner loop computes `Inner` |
| MooreMachine.CollectPartitions | reverx/src/StateMachineMoore.java:243-283 | the outer loop computes `Partitions` |
| MooreMachine.SoundFind | reverx/src/StateMachineMoore.java:141-147 | with disjoint partitions, `getPartition` finds the one holding the state |
| MooreMachine.PairSound | reverx/src/StateMachineMoore.java:270-279 | a comparison keeps the partitions disjoint and made of listed states |
| MooreMachine.InnerJoins | reverx/src/StateMachineMoore.java:257-282 | after the inner loop, `s0` shares a partition with every later state it shares a symbol with |
| MooreMachine.OuterJoins | reverx/src/StateMachineMoore.java:246-283 | after the outer loop, every two listed states sharing a symbol share a partition |
| MooreMachine.PartitionsCharacterized | reverx/src/StateMachineMoore.java:240-287 | the partitions are disjoint and listed, states sharing a symbol are in one partition, and a partition has two states exactly when two different listed states share a symbol |
| MooreMachine.JoinedRoots | reverx/src/StateMachineMoore.java:285-286 | once the partitions are merged, listed states sharing a symbol share a representative |
| MooreMachine.GeneralizeIIArena | reverx/src/StateMachineMoore.java:240-287 | on values: true exactly when two different listed states share a symbol; then all such states are joined and the history holds; false changes nothing |
| MooreMachine.GeneralizeII | reverx/src/StateMachineMoore.java:240-287 | the same on the automaton, leaving its next id unchanged |
| MooreMachine.CausalPairJoined | reverx/src/StateMachineMoore.java:263-266 | as written, both flags read `s0`'s transitions to `s1`, so a state leading only one way to another is still merged with it |
| MooreMachine.Compared | reverx/src/StateMachineMoore.java:263-270 | with the intended flags, a pair where only one state leads to the other is never found sharing a symbol |
| MooreMachine.PartitionsCheckedCharacterized | reverx/src/StateMachineMoore.java:240-287 | with the intended flags, partitions stay disjoint and listed and every two states sharing a symbol without a one-way link are joined |
| MooreMachine.CausalPairApart | reverx/src/StateMachineMoore.java:263-266 | with the intended flags, the one-way pair of the counterexample stays apart |
| MooreMachine.ClearFinal | reverx/src/StateMachineMoore.java:191-193 | every listed state becomes non-final; nothing else changes |
| MooreMachine.MarkEnds | reverx/src/StateMachineMoore.java:228-231 | every listed state without transitions becomes final; nothing else changes |
| MooreMachine.ClearThenMark | reverx/src/StateMachineMoore.java:191-231 | clearing then marking leaves a listed state final exactly when it has no transitions |
| MooreMachine.DeterminizedNoneFinal | reverx/src/StateMachineMoore.java:206 | determinizing an automaton with no final listed state gives one with no final state |
| MooreMachine.HistoryNoneFinal | reverx/src/StateMachineMoore.java:207 | merging states none of which is final leaves no listed state final |
| MooreMachine.NoneAccepted | reverx/src/StateMachineMoore.java:191-193 | an automaton with no final listed state accepts no complete sequence |
| MooreMachine.Rebuild | reverx/src/StateMachineMoore.java:205-207 | determinization then minimization leaves a canonical automaton and keeps "no listed state final" |
| MooreMachine.RepeatII | reverx/src/StateMachineMoore.java:216-224 | the inner loop repeats `generalizeII` with rebuilds until nothing shares a symbol, or the bound runs out; no pass changes nothing |
| MooreMachine.Round | reverx/src/StateMachineMoore.java:198-225 | one pass of the outer loop; a pass that changes nothing leaves neither reduction anything to merge |
| MooreMachine.Rounds | reverx/src/StateMachineMoore.java:196-226 | the outer loop ends with neither reduction having anything to merge, or with a merge done before the bound ran out |
| MooreMachine.Generalize | reverx/src/StateMachineMoore.java:187-232 | as written, the final marking goes over the list taken before the loop: whenever a merge happened, no listed state ends final and the machine accepts nothing; only when nothing merged are the ends marked final |
| MooreMachine.GeneralizeLive | reverx/src/StateMachineMoore.java:187-232 | with the marking over the current list, a listed state ends final exactly when it has no transitions |
| Languages.EqualsEquivalence | reverx/src/Language.java:154 | the symbol equality the prefix walk uses is an equivalence |
| Languages.Tokens | reverx/src/Language.java:146 | `RegEx.tokenize(message, 0)` gives the message's symbols |
| Languages.MessageTokens | reverx/src/Language.java:146 | the tokens of a message without quote tags cover its data exactly, and their concatenated pattern is the quoted data |
| Languages.AddMessage | reverx/src/Language.java:144-180 | adding a message walks the common prefix, bumping frequencies, appends the rest as fresh listed states, and advances the next id by the number added |
| Languages.AddedMessage | reverx/src/Language.java:144-180 | afterwards the message is accepted, the total frequency grew by its number of tokens, and nothing accepted before is lost |
| Languages.InsertedGrows | reverx/src/Language.java:144-180 | adding a sequence keeps every old transition and only adds |
| Languages.AcceptsGrows | reverx/src/Language.java:144-180 | a sequence accepted before an addition is still accepted after it |
| Languages.GrowKeepsFinal | reverx/src/Language.java:170-179 | appending the new chain leaves the finality of the old states unchanged |
| Languages.InsertedListClosed | reverx/src/Language.java:170-179 | after an addition, the listed states with the new ones are closed under transitions |
| Languages.AddOne | reverx/src/Language.java:62-65 | each added message is accepted thereafter and adds its token count to the total frequency |
| Languages.AddSession | reverx/src/Language.java:61-66 | one session adds exactly its messages of the chosen direction |
| Languages.DirectedMembers | reverx/src/Language.java:61-62 | the messages kept from a session are exactly those of the chosen direction |
| Languages.AddSessions | reverx/src/Language.java:59-67 | the prefix tree accepts every message of the chosen direction, keeps what it had, and its total frequency counts every token |
| Languages.PickedMembers | reverx/src/Language.java:59-67 | the messages added are exactly those of any session in the chosen direction |
| Languages.TreeAcceptsPicked | reverx/src/Language.java:59-67 | every message of the chosen direction is accepted by the prefix tree |
| Languages.FirstMatch | reverx/src/Language.java:114-123 | the first transition whose symbol matches at the offset, or none exactly when no symbol matches |
| Languages.FindMatch | reverx/src/Language.java:114-123 | the loop over the transitions finds that first match |
| Languages.MatchWalk | reverx/src/Language.java:111-125 | the common-prefix walk stays in the automaton and its offset only grows within the message |
| Languages.MatchOne | reverx/src/Language.java:113-124 | one round of the walk bumps the first matching transition and follows it, or reports that none matched |
| Languages.MatchPrefix | reverx/src/Language.java:107-125 | the whole walk bumps exactly the transitions it followed and returns where it stopped |
| Languages.AddSequenceByMatch | reverx/src/Language.java:107-138 | the deprecated text variant: walked prefix bumped, the tokens of the unmatched rest appended as fresh listed states, the last final |
| Generalization.RatioAtLeastMeaning | reverx/src/Language.java:308-309 | the integer test of the model is the ratio comparison `transitions / sum_freq >= T1` over the rationals |
| Generalization.GeneralizedSymbol | reverx/src/Language.java:278-283 | generalising a symbol reports a change exactly when it changed; with binary support set the pattern is generalised, otherwise the binary flag is set |
| Generalization.RowChanged | reverx/src/Language.java:275-283 | a state's pass is dirty exactly when some symbol of it changed |
| Generalization.GeneralizeSymbol | reverx/src/Language.java:278-283 | one call computes `GeneralizedSymbol` |
| Generalization.GeneralizeState | reverx/src/Language.java:275-283 | the loop over a state's transitions generalises each symbol in place and reports whether any changed |
| Generalization.IsEligible | reverx/src/Language.java:266-311 | a state is generalised exactly when it has more than one transition and meets the threshold |
| Generalization.EligibleKept | reverx/src/Language.java:266-311 | generalising symbols does not change which states meet a threshold |
| Generalization.PassDistinctStates | reverx/src/Language.java:266-288 | over a list without repeats, a pass generalises exactly the eligible listed states and leaves every other state as it was |
| Generalization.PassDistinctFlag | reverx/src/Language.java:266-288 | the pass reports a change exactly when some eligible listed state had a symbol change |
| Generalization.PassChanged | reverx/src/Language.java:266-288 | over a list without repeats, the pass reports a change exactly when the automaton changed |
| Generalization.PassFrame | reverx/src/Language.java:266-274 | unlisted or ineligible states are untouched |
| Generalization.PassListClosed | reverx/src/Language.java:266-288 | a pass keeps the listed states closed under transitions |
| Generalization.GeneralizeListed | reverx/src/Language.java:266-285 | one iteration of the state loop advances the pass by one state |
| Generalization.GeneralizePass | reverx/src/Language.java:266-288 | the state loop computes `Pass` on the automaton, changing nothing but symbols |
| Generalization.GeneralizeByCount | reverx/src/Language.java:261-291 | `generalize(automaton, MIN_TRANSITIONS)` is the pass with the transition-count threshold |
| Generalization.GeneralizeByRatio | reverx/src/Language.java:293-327 | `generalize(automaton, T1)` is the pass with the ratio threshold |
| LinearChains.CountState | reverx/src/Language.java:187-189 | the loop counts the transitions of one state into `dest_state` |
| LinearChains.GetPathsToState | reverx/src/Language.java:183-191 | the count of transitions of listed states into the state, zero exactly when none leads there |
| LinearChains.PathsToUnique | reverx/src/Language.java:218 | when the count is one, exactly one transition leads to the state |
| LinearChains.RemoveFirst | reverx/src/Language.java:233 | `all_states.remove(s1)` drops one occurrence and keeps every other state |
| LinearChains.RemoveFirstMultiset | reverx/src/Language.java:233 | the list loses exactly one copy of the state |
| LinearChains.Concatenated | reverx/src/Language.java:221-233 | folding changes only `t0`: it now leads to `t1`'s destination with the concatenated pattern; every other transition is unchanged |
| LinearChains.ConcatStep | reverx/src/Language.java:221-233 | one fold on the automaton computes `Concatenated` and removes the middle state from the list |
| LinearChains.ConcatenatedListClosed | reverx/src/Language.java:218-233 | when `t0` is the one way into its middle state, folding keeps the remaining listed states closed under transitions |
| LinearChains.ConcatenatedKeepsWords | reverx/src/Language.java:218-233 | a word whose run does not end at the folded middle state is still accepted, over the contracted symbols |
| LinearChains.ConcatDropsFinalState | reverx/src/Language.java:218-233 | folding ignores finality: a word ending at a final middle state is no longer accepted |
| LinearChains.Chained | reverx/src/Language.java:216-238 | repeated folding on one transition only changes that transition and only removes listed states |
| LinearChains.PathsToRemoveFirst | reverx/src/Language.java:183-191 | after `all_states.remove(x)` the count loses exactly `x`'s own transitions into the state, if `x` was listed |
| LinearChains.PathsToRedirect | reverx/src/Language.java:183-191 | redirecting a transition away from another state never lowers the count into a state, and raises it by one when the new destination is that state and the source is listed |
| LinearChains.FoldCount | reverx/src/Language.java:218-233 | a fold of a linear transition out of a listed state never lowers the count into any state but the dropped middle one |
| LinearChains.FoldKeeps | reverx/src/Language.java:218-233 | a fold keeps every other non-linear transition of a still listed state non-linear |
| LinearChains.FoldKept | reverx/src/Language.java:216-238 | one more fold on the same transition keeps the non-linear transitions of still listed states non-linear since the loop began |
| LinearChains.ChainRound | reverx/src/Language.java:216-238 | one round of the `while (true)` loop folds once or stops, reaching the same final result |
| LinearChains.MergeChain | reverx/src/Language.java:216-238 | the `while (true)` loop computes `Chained`; it stops unexhausted exactly when the transition is no longer linear; while `s0` stays listed, every other non-linear transition of a listed state stays so |
| LinearChains.MergedWalk | reverx/src/Language.java:212-238 | after the chain on transition `k` of `s0`, that transition is non-linear unless the chain was cut short, and the walk's other facts still hold |
| LinearChains.VisitedWalk | reverx/src/Language.java:240-243 | after the recursive walk from a newly visited child, all transitions up to `k` lead to visited states and the walk's facts hold for the grown visited set |
| LinearChains.Visit | reverx/src/Language.java:202-246 | only the entered states (`s0` and the newly visited) change; each of their transitions leads to a visited state; listed states outside keep their non-linear transitions; without a cut-short chain, and with all entered states still listed, none of their transitions is linear |
| LinearChains.ReachedEntered | reverx/src/Language.java:240-243 | when the entered states and the start lead only to entered states, every state a way from the start reaches is the start or entered |
| LinearChains.ConcatUniqueLinearStates | reverx/src/Language.java:254-259 | every transition of the initial or an entered state leads to an entered state, only those change, and without a cut-short chain, with all of them still listed, none of their transitions is linear |
| Inference.Language.constructor | reverx/src/Language.java:39-41 | a new language holds one non-final initial state, listed |
| Inference.MinimizeClosed | reverx/src/Language.java:71 | minimization keeps the list closed, removes duplicates and, on a deterministic tree, keeps the language |
| Inference.DeterminizedList | reverx/src/Language.java:78-83 | after determinization the state list has no repeats and is deterministic |
| Inference.Reduce | reverx/src/Language.java:78-84 | determinization then minimization keeps the accepted prefixes, and the accepted sequences when the initial state is not final |
| Inference.GeneralizeClosed | reverx/src/Language.java:77-82 | a generalisation pass on a closed automaton is `Pass` and keeps it closed |
| Inference.Language.InferFromTraces | reverx/src/Language.java:54-96 | the prefix tree accepts every message of the chosen direction and counts every token; the final automaton lists each state once with ids renumbered from zero |
| Inference.InferLanguage | reverx/src/Language.java:47-52 | the prefix tree grows from the one initial state, accepts every message of the direction, and its frequencies count every token; the inferred automaton lists each state once with ids renumbered from zero |
| MessageTypes.Equals | reverx/src/automata/LanguageMessageType.java:76-97 | two message types are equal exactly when their paths have the same length and equal symbols position by position; nothing else equals one |
| MessageTypes.SameSymbolsEquivalence | reverx/src/automata/LanguageMessageType.java:76-97 | that equality is reflexive, symmetric and transitive |
| MessageTypes.ProperPrefixDiffers | reverx/src/automata/LanguageMessageType.java:93 | a path never equals a proper prefix of itself, in either order |
| MessageTypes.ListHashOne | reverx/src/automata/LanguageMessageType.java:71-74 | the list hash of a one-transition path is `31` plus the transition's hash |
| MessageTypes.EqualTypesHashApart | reverx/src/automata/LanguageMessageType.java:71-74 | paths with the same symbol and different destinations hash apart whenever the two destination states do |
| MessageTypes.EqualMessageTypesHashApart | reverx/src/automata/LanguageMessageType.java:71-97 | two message types can be equal yet hash apart, because the hash includes the destination states the equality ignores |
| MessageTypes.ToString | reverx/src/automata/LanguageMessageType.java:99-106 | the text is the concatenated text of the path's symbols |
| MessageTypes.SameSymbolsSameText | reverx/src/automata/LanguageMessageType.java:76-106 | equal message types print the same text |
| MessageTypes.PathTextAppend | reverx/src/automata/LanguageMessageType.java:99-106 | the text of a joined path is the text of the first part followed by that of the second |
| MessageTypes.NewIORegEx | reverx/src/automata/IORegEx.java:40-49 | the input and output patterns are the folds of `RegEx.concat` over the two lists from the empty pattern |
| MessageTypes.IORegExOfData | reverx/src/automata/IORegEx.java:40-49 | built from quoted data, the input and output patterns quote the joined data, and an empty list gives the empty pattern |
| MessageTypes.PairHashConsistent | reverx/src/automata/IORegEx.java:59-71 | equal pairs hash alike; the equality is reflexive, symmetric and transitive, and a non-pair is never equal |
| MessageTypes.PairText | reverx/src/automata/IORegEx.java:73-76 | the text is the input text, a `/`, then the output text |
| MessageTypes.PairTextOfData | reverx/src/automata/IORegEx.java:73-76 | built from quoted data, the text is the plain input data, `/`, the plain output data |
| Sessions.ConvertMoore | reverx/src/StateMachineMoore.java:352-369 | succeeds exactly when every request is classified, giving one message type per request in order; otherwise fails at the first unclassified request, with its position in the session |
| Sessions.RequestTypesCount | reverx/src/StateMachineMoore.java:356-367 | the sequence has one message type per request of the session |
| Sessions.RequestTypesPaths | reverx/src/StateMachineMoore.java:359-362 | every message type of the sequence is the classification of some request of the session |
| Sessions.ConvertMealy | reverx/src/StateMachineMealy.java:57-102 | succeeds exactly when every message is classified in its direction; the groups then hold the session's requests and responses in order, each group being requests followed by the responses that answer them; otherwise fails at the first unclassified message |
| Sessions.MealyStep | reverx/src/StateMachineMealy.java:65-95 | one message: a request after responses closes the group; requests extend the inputs and responses the outputs, or the message is reported unknown |
| Sessions.ReadRequest | reverx/src/StateMachineMealy.java:68-82 | reading a request appends its type to the requests and leaves the responses unchanged |
| Sessions.ReadResponse | reverx/src/StateMachineMealy.java:85-94 | reading a response appends its type to the responses and leaves the requests unchanged |
| Sessions.CloseGroup | reverx/src/StateMachineMealy.java:70-76 | a request after responses closes the open group and opens a new one with that request |
| Sessions.ExtendInputs | reverx/src/StateMachineMealy.java:77-81 | a request with no pending responses joins the open group's inputs |
| Sessions.ExtendOutputs | reverx/src/StateMachineMealy.java:85-93 | a response joins the open group's outputs |
| Sessions.Finish | reverx/src/StateMachineMealy.java:97-99 | adding the last non-empty group accounts for every message of the session in order |
| Sessions.FinishShape | reverx/src/StateMachineMealy.java:97-99 | no group is empty and only the last may have no responses |
| Sessions.KnownAll | reverx/src/StateMachineMealy.java:65-95 | a session passes the loop exactly when no message is unknown |
| Sessions.EmptyGrouping | reverx/src/StateMachineMealy.java:97-101 | the grouping is empty exactly when the session is |
| GlobalSequenceAlignment.RowCellChoice | src/bioinformatics/GlobalSequenceAlignment.java:97-121 | the last cell of a row points up; every other cell takes the best of the diagonal, left and up scores, preferring diagonal then left on ties, and links to the cell that score came from |
| GlobalSequenceAlignment.RowStep | src/bioinformatics/GlobalSequenceAlignment.java:103-117 | each cell of the row is the choice among the three scores of its neighbours |
| GlobalSequenceAlignment.CalculateReverseRow | src/bioinformatics/GlobalSequenceAlignment.java:97-121 | a fresh row equal to `Row`; an index error exactly when the previous row is too short |
| GlobalSequenceAlignment.Align | src/bioinformatics/GlobalSequenceAlignment.java:123-137 | a fresh matrix with one row per symbol plus the zero row, row `i` being `Rows(i)` |
| GlobalSequenceAlignment.RowsScoreLcs | src/bioinformatics/GlobalSequenceAlignment.java:97-137 | every cell's score is the length of a longest common subsequence of the two suffixes it stands for |
| GlobalSequenceAlignment.LcsSteps | src/bioinformatics/GlobalSequenceAlignment.java:104-106 | dropping one symbol lowers the common-subsequence length by at most one |
| GlobalSequenceAlignment.LcsBounded | src/bioinformatics/GlobalSequenceAlignment.java:104-106 | that length is at most the length of either suffix |
| GlobalSequenceAlignment.LcsSelf | src/bioinformatics/GlobalSequenceAlignment.java:104 | a sequence aligned with itself scores its own length |
| GlobalSequenceAlignment.MatrixScore | src/bioinformatics/GlobalSequenceAlignment.java:178-185 | the top-left score is the longest common subsequence of the two sequences, bounded by both lengths |
| GlobalSequenceAlignment.MatrixMonotone | src/bioinformatics/GlobalSequenceAlignment.java:97-137 | scores never decrease towards the top-left corner |
| GlobalSequenceAlignment.MatrixLinks | src/bioinformatics/GlobalSequenceAlignment.java:99-128 | cells of the zero row have no link; every other cell links to the matrix cell its direction names, carrying the symbol that step consumes |
| GlobalSequenceAlignment.Walk | src/bioinformatics/GlobalSequenceAlignment.java:147-173 | following the links gives two columns of equal length and never moves past the new sequence |
| GlobalSequenceAlignment.WalkFromMatrix | src/bioinformatics/GlobalSequenceAlignment.java:147-173 | the walk from any matrix cell covers the rest of the first sequence and, padded at the end, the rest of the new one |
| GlobalSequenceAlignment.GetAlignmentOf | src/bioinformatics/GlobalSequenceAlignment.java:139-176 | the loops compute `AlignmentOf` |
| GlobalSequenceAlignment.AlignmentOfCovered | src/bioinformatics/GlobalSequenceAlignment.java:139-176 | a linked covering cell gives two equal-length columns that spell the two sequences with gaps, and the similarity of the cell |
| GlobalSequenceAlignment.AlignmentOfMatrix | src/bioinformatics/GlobalSequenceAlignment.java:139-176 | from the top-left cell: an arithmetic error exactly when the first sequence is empty, otherwise equal-length columns spelling both sequences and a similarity of the common-subsequence length over the number of links |
| GlobalSequenceAlignment.GetAlignment | src/bioinformatics/GlobalSequenceAlignment.java:92-95 | fails exactly for an empty first sequence; otherwise the two columns have equal length and spell the two sequences once the gaps are removed |
| GlobalSequenceAlignment.SymbolByteEquality | src/bioinformatics/GlobalSequenceAlignment.java:59-67 | byte symbols are equal exactly when their hashes are; the equality is reflexive, symmetric and transitive; a null or a different object is a runtime error |
| OptionsParser.Lookup | src/utils/Options.java:34-96 | the first option, from a position on, whose long or short form equals the argument, every earlier one having a long form and not naming it; nothing when none names it; a null-pointer error exactly when an option without a long form is reached first |
| OptionsParser.FindOpt | src/utils/Options.java:91-96 | the loop over the options returns what `Lookup` describes |
| OptionsParser.LookupForms | src/utils/Options.java:58-96 | option lookup depends only on the forms, not on values or set flags, so setting options while scanning does not change later lookups |
| OptionsParser.Take | src/utils/Options.java:60-70 | a matched option is marked set and nothing else changes; the next argument is consumed as its value only when it exists and does not start with `-` |
| OptionsParser.Scan | src/utils/Options.java:51-78 | scanning never changes any option's forms |
| OptionsParser.ScanQueue | src/utils/Options.java:73-77 | the unmatched arguments extend what was kept before, and none of them names an option |
| OptionsParser.ScanAllQueued | src/utils/Options.java:51-78 | when no argument names an option, the options are unchanged and every argument is kept in order |
| OptionsParser.ScanKeepsSet | src/utils/Options.java:61 | an option once set stays set |
| OptionsParser.ScanSetsDashed | src/utils/Options.java:60-64 | every option named by a dash argument ends up set |
| OptionsParser.EmptyArgumentMatches | src/utils/Options.java:30-35 | an option registered without a short form is named by the empty argument |
| OptionsParser.ScanExamples | src/utils/Options.java:60-74 | `-f x` sets `-f` with value `x`; `-f -g` sets `-f` without a value and keeps `-g`; `y -f` keeps `y` |
| OptionsParser.Kept | src/utils/Options.java:137-142 | filtering never lengthens the remaining arguments, and keeps all of them exactly when the argument is absent |
| OptionsParser.StripKeeps | src/utils/Options.java:132-145 | the copy loop keeps the non-matching arguments in order and pads with nulls, or overflows the shorter array |
| OptionsParser.StripMeaning | src/utils/Options.java:132-145 | stripping from no arguments is a negative-size error; stripping an absent argument overflows the array; otherwise the others are kept in order, padded with nulls, and the result is true |
| OptionsParser.StripOnce | src/utils/Options.java:132-145 | stripping an argument that occurs once leaves exactly the others, in order |
| OptionsParser.Options.constructor | src/utils/Options.java:42-45 | no options and no remaining arguments |
| OptionsParser.Options.SetOption | src/utils/Options.java:47-49 | appends one unset option with the short form defaulted to empty |
| OptionsParser.Options.SetArgs | src/utils/Options.java:51-78 | the options and remaining arguments become those of `Scan`; on an error the remaining arguments are left unchanged |
| OptionsParser.Options.GetValueString | src/utils/Options.java:98-104 | the value of the option `Lookup` finds, nothing when none, and its error when lookup fails |
| OptionsParser.Options.GetValueBoolean | src/utils/Options.java:124-130 | true exactly when `Lookup` finds an option and it is set |
| OptionsParser.Options.StripArg | src/utils/Options.java:132-145 | the remaining arguments become those of `StripArgument` and the result is whether the argument was found; on an error nothing changes |
| OptionsExtendedParser.FirstSelecting | src/utils/OptionsExtended.java:34-64 | the first option, from a position on, whose long form equals or prefixes the argument or whose short form equals it; nothing exactly when no option does |
| OptionsExtendedParser.GetOption | src/utils/OptionsExtended.java:59-64 | the loop over the options returns what `FirstSelecting` describes |
| OptionsExtendedParser.SelectingForms | src/utils/OptionsExtended.java:59-119 | option selection depends only on the forms, so assigning values does not change later selections |
| OptionsExtendedParser.Take | src/utils/OptionsExtended.java:70-85 | a selected option gets a value and nothing else changes; the next argument is consumed only when it exists and selects no option; a null-pointer error exactly when the selected option has no long form |
| OptionsExtendedParser.Parse | src/utils/OptionsExtended.java:66-90 | parsing never changes any option's forms |
| OptionsExtendedParser.ParseQueue | src/utils/OptionsExtended.java:86-87 | the queue only grows at its end, and nothing added to it selects an option |
| OptionsExtendedParser.ParseAllQueued | src/utils/OptionsExtended.java:66-90 | when no argument selects an option, the options are unchanged and every argument is queued in order |
| OptionsExtendedParser.ParseKeepsValue | src/utils/OptionsExtended.java:75-83 | an option that has a value keeps one |
| OptionsExtendedParser.ParseSetsSelected | src/utils/OptionsExtended.java:70-83 | every option selected by some argument ends up with a value |
| OptionsExtendedParser.ParseExamples | src/utils/OptionsExtended.java:75-87 | `--txt=a` gives value `a`; `-t a` gives `a`; `-t -t` gives the empty value and consumes both; a bare `--txt=` gives the empty value |
| OptionsExtendedParser.ShortOnlyFails | src/utils/OptionsExtended.java:35-75 | an option registered only by its short form makes parsing fail with a null pointer when it is given |
| OptionsExtendedParser.QueueOrder | src/utils/OptionsExtended.java:86-94 | arguments that select no option come out in the order they were given |
| OptionsExtendedParser.OptionsExtended.constructor | src/utils/OptionsExtended.java:44-47 | no options and an empty queue |
| OptionsExtendedParser.OptionsExtended.SetOption | src/utils/OptionsExtended.java:55-57 | appends one option without a value |
| OptionsExtendedParser.OptionsExtended.ParseArgs | src/utils/OptionsExtended.java:66-90 | options, queue and error are those of `Parse` from the current queue |
| OptionsExtendedParser.OptionsExtended.RemoveArg | src/utils/OptionsExtended.java:100-105 | a missing-parameter error on an empty queue; otherwise the head of the queue, which is removed |
| OptionsExtendedParser.OptionsExtended.GetValueString | src/utils/OptionsExtended.java:139-145 | the value of the first selecting option, nothing when none selects |
| OptionsExtendedParser.OptionsExtended.GetValueBoolean | src/utils/OptionsExtended.java:167-170 | true exactly when some option selects the name and it has a value |

## Left out

- Generalization.GeneralizePass: symbols are values, so generalising one transition's symbol changes only that transition. In the source, `minimization`, `merge` and `determinization` can leave one `RegEx` object on several transitions, and `generalize` changes that shared object in place. Sharing of one `Transition` object between two states' lists is also not modelled.
- Automata.Automaton.NewState: the id counter `State.NEXT_ID` is a static shared by every automaton. Here it is the automaton's own `nextId` field, because each automaton in the model is built and renumbered on its own.
- Automata.InsertedFreq: transition frequencies and their sums are unbounded integers. The source's `int` fields `_freq`, `freq +=` and `sum_freq` could wrap after 2^31 insertions. Merging.Merge and Determinization.Construct sum frequencies the same way.
- RegExSymbols.GetGeneralizedRegEx: a `HashSet<Byte>` is enumerated in ascending byte order. Java's order depends on bucket layout, so the bracket may list the same bytes in another order than the source.
- RegExOperations.Eligible: the source decides on whichever byte its `HashSet` yields first; the model decides on the least byte.
- Determinization.Construct, MooreMachine.GeneralizeIIArena and MooreMachine.MergeEachSet: hash-set and hash-map enumerations are fixed orders (ascending state lists, groups in first-insertion order). The source's order depends on identity hash codes.
- Generalization.GeneralizeByRatio: the threshold `T1` is the rational `num / den`, compared by cross-multiplication, instead of a `float`.
- MooreMachine.Rounds, MooreMachine.Generalize and MooreMachine.GeneralizeLive: the source repeats the reductions until nothing changes. The model runs at most `fuel` rounds; `stable` says whether the last round changed nothing.
- LinearChains.MergeChain, LinearChains.Visit and LinearChains.ConcatUniqueLinearStates: `fuel` bounds the folds per transition. The source's `while (true)` has no bound. The walk itself needs no bound: each recursive call visits a new state.
- LinearChains.Visit and LinearChains.ConcatUniqueLinearStates: "no transition is linear afterwards" is stated only while every entered state is still listed. A fold by a state that is no longer listed can change the counts of other states. The initial state itself can be dropped as a middle state, for example in `initial -a-> x -b-> initial`.
- LinearChains.ConcatUniqueLinearStates: the language of the whole pass is not stated. One fold keeps every word whose run avoids the middle state (ConcatenatedKeepsWords). Words ending at a final middle state are lost, as ConcatDropsFinalState shows.
- Automata.TransitionEqualsObject: only a transition's `equals` is modelled. A symbol's own `equals` handed a transition (reverx/src/automata/RegEx.java:449-454) falls back to object identity and is false, so `equals` is not symmetric either. Object identity is not part of this model.
- Inference.Language.InferFromTraces: at most `rounds` ratio rounds run, where the source loops until a round changes nothing. The contract characterises the prefix tree and the shape of the final automaton, not the final automaton's language, since the generalisation passes widen it and the chain folding can drop words.
- Generalization.GeneralizedSymbol: `RegEx.hasBinarySupport()` and `generalize(boolean)` are not part of this model. The mode is a flag. As written, the source calls the text generalisation when binary support is set and the binary one otherwise, which looks inverted; the model keeps the branch as written.
- Generalization.GeneralizePass: the `System.out.println` progress output is not modelled.
- RegExSymbols.GetBytes: `String.getBytes()` takes the low eight bits of each character. The platform charset is not modelled.
- Traces.ByteChars.CharAt: every `ByteChars` method requires a window inside its buffer (`Valid()`). The exceptions on a window that the constructor stored out of range are not modelled; only `CharAt` and `SubSequence` state their index errors.
- Timer.ToStringFuzzy: it requires less than one hour, because the hours branch computes in `float`. The `Timer` instance methods read the clock and are left out.
- RegExOperations.Process: it classifies `\w+` with the corrected CharClass, so a `\w+` token stays a word class; as written the source reads it as `\S+` (see Findings). RegExOperations.ProcessRoundTrip is proved for this corrected reading.
- RegExOperations.ParseBracket: it uses HasRange as written, so a range found after position 3 gives the source's `StringIndexOutOfBoundsException`.
- GlobalSequenceAlignment.MatrixScore: `getSimilarityScore` and `SymbolByte.toArray` have no members of their own. The score is the top-left cell's `GlobalSimilarity`, and `toArray` only copies bytes.
- Sessions.ConvertMealy: the error names the position of the first unknown message. The source's exception carries only the message text.
- Sessions.ConvertMoore: message classification (`language.accepts`, which is not part of this model) is a parameter returning an optional path.
- RegExPaths.GetPath: the Java regular-expression matcher is a parameter returning a match length at an offset.
- OptionsParser.Options.SetArgs: `concatArgs`, `getValueInteger`, `getValueFloat`, `getRemainingArgs` and `toString` of both option parsers are not modelled, nor `getTotalRemainingArgs` and `getUsageOptions` of OptionsExtended. They are string formatting, number parsing or plain field reads.
- Packet capture and trace files, graph drawing (`toDot`, DotGraph), printing, randomness (`generateInstances`, `expandRegEx`), file and process utilities, and `main`/`printUsage` are not part of this model: they are I/O or output only.

## Findings

| source | as written | input that shows it | evidently intended | confidence | as-written member | corrected member |
|---|---|---|---|---|---|---|
| src/utils/Convert.java:92-99 | `toLong` shifts each byte in `int` arithmetic, so the shift distance wraps mod 32 and bytes 4..7 land on bytes 0..3 | `00 00 00 01 00 00 00 00` and `00 00 00 00 00 00 00 01` both decode to 1 | an eight-byte big-endian decode into a `long` | high, not executed | Convert.ToLongCounterexample | Convert.ToLongBigEndianSeparates |
| reverx/src/traces/ByteChars.java:127-139 | `equals` loops `i` from `off` while `i < len`, so a window at a non-zero offset compares only part of its bytes | windows `[1]` and `[2]` at offset 1 of `[0, 1]` and `[0, 2]` compare equal | compare all `len` bytes of both windows | high, not executed | Traces.EqualsAsWrittenCounterexample | Traces.ByteChars.Equals |
| src/automata/RegExOperations.java:365-388 | the constructor compares the captured group with `"w"`, but the group holds `"w+"` | the text `\w+` parses and prints as `\S+` | `\w+` makes a word class that prints back as `\w+` | high, not executed | RegExOperations.CharClassAsWrittenWord | RegExOperations.CharClassRoundTrip |
| src/automata/RegExOperations.java:154-161 | `hasRange` passes `range.length()` where `replace` expects an end index | `xA-Z` leaves `xZ`; `abcdA-Z` throws `StringIndexOutOfBoundsException` | remove the first occurrence of the range | high, not executed | RegExOperations.HasRangeCases | RegExOperations.HasRangeIntendedCases |
| reverx/src/StateMachineMoore.java:263-266 | both causal flags are computed from `s0`'s transitions to `s1`, so they are always equal and the causal check never refuses a pair | two states sharing a symbol where only one leads to the other are merged | refuse to merge a pair linked in one direction only | medium, not executed | MooreMachine.CausalPairJoined | MooreMachine.CausalPairApart |
| reverx/src/StateMachineMoore.java:188-231 | the final marking runs over the state list taken before the reductions, which a merge has since replaced | after any merge no live state is final and the machine accepts nothing | mark the states of the current list that have no transitions | medium, not executed | MooreMachine.Generalize | MooreMachine.GeneralizeLive |
