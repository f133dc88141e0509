# just-getopt: a Dafny model of the command-line classifier

just-getopt is a small Rust library for command-line parsing. A program builds
an `OptSpecs` registry: it declares options with `option(id, name,
value_type)`, sets behaviour flags with `flag` and sets an argument limit with
`arg_limit`. Then it hands the command line to `parse`. `parse` runs one
cursor over the arguments and sorts every token into one of three places:

- `options`: a recognised option, with the name as typed, its id, whether a
  value was required, and the value;
- `unknown`: a token that looks like an option but matches no declaration;
- `other`: operands, and everything after `--`.

It stops at the first operand unless `OptionsEverywhere` is set. With
`PrefixMatchLongOptions`, a long option can be abbreviated to any unambiguous
prefix. The result `Args` offers read-only queries: `options_all`,
`options_first`/`options_last`, `options_value_all`,
`options_value_first`/`options_value_last` and `required_value_missing`.

The model has these modules:

- `Lexical` (`lexical.dfy`): the token predicates and slicing helpers of
  `src/parser.rs`.
- `Registry` (`registry.dfy`): `OptSpecs` as a class whose builder methods
  change its fields.
- `Results` (`results.dfy`): `Args` and `Opt` as datatypes. The queries that
  loop are methods proved against `Filter`; the `find` queries are functions.
- `Parser` (`parser.dfy`): `Classify`, the specification of `parse`, written
  as one step per token. `Parse` is the imperative loop with its shared
  cursor, proved equal to `Classify`.
- `ParserFacts` (`parser_facts.dfy`): the general properties of `Classify`.
- `Scenarios` (`scenarios.dfy`): the command lines of the library's test
  suite, each worked out to its exact result.
- `ByteSlicing` (`byte_slicing.dfy`): the two byte-level discrepancies
  described under Findings.
- `Seqs` and `Wrappers` are helpers.

Strings are sequences of Unicode code points.

## Model

| member | source | states |
|---|---|---|
| Lexical.IndexOf | src/parser.rs:201-204 | the split point of a long option: no '=' before it, and '=' at it unless it is the end |
| Lexical.GetLongOption | src/parser.rs:194-199 | only defined on long-option tokens; "--" followed by the body gives back the token, and the body starts with a character other than '-' |
| Lexical.GetLongOptionName | src/parser.rs:201-204 | the name is the prefix of the body up to the first '=', contains no '=', and is followed by '=' when shorter than the body |
| Lexical.GetLongOptionEqualValue | src/parser.rs:210-216 | with an '=' in the body, the body is name + "=" + value; with no '=', the value is empty and the name is the whole body |
| Lexical.GetShortOptionSeries | src/parser.rs:250-252 | the series is the token without its single leading '-' |
| Lexical.IsOptionTerminator | src/parser.rs:182-184 | a token is the terminator iff it is exactly "--"; the terminator is neither a long option nor a cluster |
| Lexical.IsLongOptionPrefix | src/parser.rs:186-192 | a token is a long option iff it has at least three characters, starts "--" and the third is not '-' |
| Lexical.IsLongOptionEqualSign | src/parser.rs:206-208 | the body has an '=' at its third character or later |
| Lexical.IsValidShortOptionName | src/parser.rs:230-240 | a short name is valid iff it is one character other than space and '-' |
| Lexical.IsValidLongOptionName | src/parser.rs:218-228 | a long name is valid iff it does not start with '-' and contains neither space nor '=' |
| Lexical.IsShortOptionPrefix | src/parser.rs:242-248 | a token is a short-option cluster iff it starts with '-' and its second character is a valid short name |
| Lexical.PrefixesExclusive | src/parser.rs:186-248 | no token is both a long option and a short-option cluster |
| Lexical.DashesAreNotOptions | src/parser.rs:186-248 | "-", "--" and anything starting "---" are neither long options nor clusters |
| Lexical.EqualSignAfterLongName | src/parser.rs:206-208 | for a name of two or more characters, skipping two characters of the body still finds '=' iff the body has one |
| Registry.FirstNamed | src/lib.rs:557-569 | `find` by name succeeds iff some declaration has that name, and returns one with that name |
| Registry.DeclareKeepsWellFormed | src/lib.rs:451-486 | an accepted declaration keeps names unique and every name valid |
| Registry.OptSpecs.constructor | src/lib.rs:407-413 | a new registry has no options, no flags and the limit `u32::MAX` |
| Registry.OptSpecs.Option | src/lib.rs:451-486 | a declaration is accepted iff the id is non-empty, the name is a valid short or long name, and the name is not yet declared; when accepted it is appended, otherwise nothing changes |
| Registry.OptSpecs.Flag | src/lib.rs:511-518 | the flag is appended; a flag is then set iff it was set before or is the new one |
| Registry.OptSpecs.IsFlag | src/lib.rs:516-518 | a flag is set iff some entry of the flag list is that flag |
| Registry.OptSpecs.ArgLimit | src/lib.rs:534-537 | the limit becomes `limit`, and a count is then under the limit iff it is below `limit` |
| Registry.OptSpecs.GetShortOptionMatch | src/lib.rs:557-562 | a match exists iff the name is one character long and declared; the match carries that name |
| Registry.OptSpecs.GetLongOptionMatch | src/lib.rs:564-569 | a match exists iff the name has at least two characters and is declared; the match carries that name |
| Registry.OptSpecs.GetLongOptionPrefixMatches | src/lib.rs:571-588 | for names of two or more characters: the declarations whose name starts with it, in order, or None if there are none; shorter names give None |
| Registry.OptSpecs.IsUnderLimit | src/lib.rs:590-592 | a count is under the limit iff it is below the configured limit |
| Results.ValuesOf | src/lib.rs:744-753 | the present values in order; never more values than options |
| Results.ValuesOfMembers | src/lib.rs:744-753 | a value is listed iff some option carries it |
| Results.ValuesOfAppend | src/lib.rs:744-753 | collecting values distributes over concatenation |
| Results.FirstValueOfId | src/lib.rs:769-778 | the first option with the id and a value carries the first of the id's values, and none exists iff the id has no values |
| Results.LastValueOfId | src/lib.rs:791-801 | the last option with the id and a value carries the last of the id's values, and none exists iff the id has no values |
| Results.LastValueStep | src/lib.rs:791-801 | appending one option extends the id's values and the backwards search as expected |
| Results.Args.RequiredValueMissing | src/lib.rs:680-688 | exactly the options that require a value and have none, in order; an option that carries a value, even an empty one, is never listed |
| Results.EmptyValueIsNotMissing | src/lib.rs:680-688 | an option given an explicit empty value is not among the missing ones |
| Results.Args.OptionsAll | src/lib.rs:698-706 | exactly the options with the id, in order |
| Results.Args.OptionsFirst | src/lib.rs:722-724 | None iff no option has the id, otherwise the first one that has it |
| Results.Args.OptionsLast | src/lib.rs:731-733 | None iff no option has the id, otherwise the last one that has it |
| Results.Args.OptionsValueAll | src/lib.rs:744-753 | the present values of exactly the options with the id, in order |
| Results.PresentValues | src/lib.rs:747-751 | the loop collects exactly the present values, in order |
| Results.Args.ValuesOfWithId | src/lib.rs:744-753 | a value is listed for an id iff an option with that id carries it |
| Results.Args.OptionsValueFirst | src/lib.rs:769-778 | None iff the id has no values, otherwise its first value |
| Results.Args.OptionsValueLast | src/lib.rs:791-801 | None iff the id has no values, otherwise its last value |
| Results.NewArgs | src/lib.rs:657-664 | a new result finds nothing under any id, and has no operands, no unknowns and the limit flag clear |
| Results.Deduplicated | src/lib.rs:630-647 | the de-duplication the field's documentation promises: the same elements, each once |
| Results.DeduplicatedIsSubseq | src/lib.rs:630-647 | the de-duplicated list keeps the input's order: it is a subsequence of the input |
| Results.DeduplicatedKeepsFirstOrder | src/lib.rs:630-647 | entries are listed in the order of their first occurrences in the input |
| Parser.ResolveLong | src/parser.rs:19-35 | a resolved long name is valid, has at least two characters, and is a prefix of the declaration it resolves to |
| Parser.LongOption | src/parser.rs:18-91 | a long option always moves the cursor past its own token and never past the end, and leaves `other` and the limit flag alone |
| Parser.Cluster | src/parser.rs:92-157 | a cluster never moves the cursor backwards and never past the end, and leaves `other` and the limit flag alone |
| Parser.Drain | src/parser.rs:166-171 | the options and unknowns are kept, and `other` gains exactly the remaining tokens, in order |
| Parser.ClassifyFrom | src/parser.rs:6-174 | from any cursor, `other` only grows, by at most one entry per remaining token, and the limit flag is never touched |
| Parser.Classify | src/parser.rs:6-174 | `parse` puts at most one entry in `other` per token and never sets `arg_limit_exceeded` |
| Parser.ParseLongOption | src/parser.rs:18-91 | the branch for a long-option token computes exactly `LongOption` |
| Parser.ParseShortCluster | src/parser.rs:92-157 | the character loop over a cluster computes exactly `Cluster` |
| Parser.ParseToken | src/parser.rs:16-164 | one pass of the loop over the token at the cursor: the cursor advances, and the loop either stops and drains from the new cursor (terminator, or the first operand without `OptionsEverywhere`) or `Classify` continues from there |
| Parser.Parse | src/parser.rs:6-174 | the parse loop returns exactly `Classify` of the arguments |
| Parser.PushRemaining | src/parser.rs:166-171 | the drain loop appends exactly the remaining tokens to `other` |
| ParserFacts.ResolveLongExact | src/parser.rs:33-34 | without prefix matching, a long name resolves iff it has at least two characters, is valid and is declared; the match has exactly that name |
| ParserFacts.ResolveLongByPrefixSound | src/parser.rs:22-32 | with prefix matching, a resolved name is valid and the resolved declaration is the only one it is a prefix of |
| ParserFacts.ResolveLongByPrefixComplete | src/parser.rs:22-32 | with prefix matching, a valid name that is a prefix of exactly one declaration resolves to it |
| ParserFacts.PrefixOfTwoIsUnresolved | src/parser.rs:26-31 | with prefix matching, a name that is a prefix of two declarations is unresolved |
| ParserFacts.LongOptionValueRules | src/parser.rs:37-85 | a resolved long option takes its value after '=' or from the next token when required, after '=' only when optional, and goes to unknown as "name=" when it takes no value but has an '=' |
| ParserFacts.LongOptionUnresolved | src/parser.rs:88-91 | an unresolved long option records its name, without '=', as unknown and consumes one token |
| ParserFacts.ClusterAllUnknown | src/parser.rs:95-157 | a cluster of undeclared characters records each character as unknown, in order, and consumes nothing more |
| ParserFacts.ClusterValueRules | src/parser.rs:108-150 | a short option with a value takes the rest of the cluster if non-empty; if it is empty, a required value comes from the next token and an optional one is absent |
| ParserFacts.TerminatorStopsScanning | src/parser.rs:16-17 | after "--", every remaining token goes to `other` unchanged |
| ParserFacts.LeadingTerminator | src/parser.rs:16-17 | a command line starting with "--" has only operands, exactly the rest |
| ParserFacts.OperandStopsScanning | src/parser.rs:160-163 | without `OptionsEverywhere`, the first operand and everything after it go to `other` |
| ParserFacts.OperandEverywhere | src/parser.rs:158-159 | with `OptionsEverywhere`, an operand goes to `other` and scanning continues |
| ParserFacts.LongOptionExtends | src/parser.rs:18-91 | a long option only appends to options and unknown |
| ParserFacts.ClusterExtends | src/parser.rs:92-157 | a cluster only appends to options and unknown |
| ParserFacts.ClassifyExtends | src/parser.rs:6-174 | parsing only appends to the three lists of the result |
| ParserFacts.OtherAddsFromLater | src/parser.rs:6-174 | a subsequence of the input from a later cursor is one of the input from an earlier cursor |
| ParserFacts.OtherAddsToken | src/parser.rs:158-159 | an operand kept at the cursor followed by a subsequence of the rest is a subsequence of the input from the cursor |
| ParserFacts.OtherAddsDrain | src/parser.rs:166-171 | the final drain adds a suffix of the input, hence a subsequence of it |
| ParserFacts.Step | src/parser.rs:16-164 | one pass of the loop advances the cursor; a token that is not an option or the terminator is appended to `other` and consumes only itself (src/parser.rs:158-164), while the terminator, a long option and a cluster leave `other` unchanged; the pass either stops and drains or `Classify` continues from the new cursor |
| ParserFacts.OtherIsSubseqOfInput | src/parser.rs:6-174 | for any registry, `other` is the entries it had followed by a subsequence of the remaining tokens, in input order, so each token is in `other` at most once (soundness only; which tokens are kept is stated pass by pass in `ParserFacts.Step`) |
| ParserFacts.OtherComesFromInput | src/parser.rs:158-171 | everything in `other` is a token of the command line |
| ParserFacts.EverywhereOtherIsOperands | src/parser.rs:158-159 | with `OptionsEverywhere`, no "--" and no option taking a value, `other` is exactly the operands in order |
| ParserFacts.PosixOtherIsTail | src/parser.rs:160-171 | without `OptionsEverywhere`, with no "--" and no option taking a value, `other` is exactly the command line from the first operand on |
| ParserFacts.LongOptionNoValueStep | src/parser.rs:69-76 | when no option takes a value, a long option consumes exactly its own token |
| ParserFacts.ClusterNoValueKeepsCursor | src/parser.rs:138-141 | when no option takes a value, a cluster consumes no further token |
| ParserFacts.SeriesStep | src/parser.rs:95-157 | the entries of a cluster are those of its first character followed by those of the rest |
| ParserFacts.ClusterNoValue | src/parser.rs:95-157 | when no option takes a value, a cluster records each declared character as an option and each other character as unknown, in order, and takes no further token |
| ParserFacts.LongOptionNoValue | src/parser.rs:18-91 | when no option takes a value, a long option token yields its option, its unknown name, or "name=" for a declared name given '=', and takes only itself |
| ParserFacts.NoValueLine | src/parser.rs:6-174 | when no option takes a value and every token is an option token, each token yields its own entries in order and `other` gains nothing |
| ParserFacts.NoFlagsRoundTrip | src/parser.rs:6-174 | the no-flags round trip: with only no-value options and only option tokens, `other` is empty and `unknown` holds exactly, in order, every name matching no declaration (and "name=" for a declared name given a value) |
| ParserFacts.LongOptionAppendsOne | src/parser.rs:37-86 | a resolved long option appends at most one option, with the declaration's id, the typed name, `value_required` exactly for `Required`, and no value when the declaration takes none |
| ParserFacts.LongOptionRecords | src/parser.rs:79-84 | a recorded long option carries its declaration's id, a name that is a prefix of the declared one, `value_required` exactly for required options, and no value when it takes none |
| ParserFacts.ClusterRecords | src/parser.rs:144-149 | every option a cluster records is faithful to its declaration in the same way: its id, `value_required` exactly for required options, no value when it takes none |
| ParserFacts.ClassifyRecords | src/parser.rs:6-174 | every recorded option is faithful to its declaration in this way |
| ParserFacts.LongOptionMissingAtEnd | src/parser.rs:49-52 | a long option with a missing required value ends the command line |
| ParserFacts.ClusterMissingAtEnd | src/parser.rs:116-119 | a short option with a missing required value ends the command line |
| ParserFacts.MissingValueIsLast | src/parser.rs:6-174 | at most one recorded option misses its required value, and only the last one |
| Scenarios.ShortFlagToken | src/parser.rs:138-150 | "-c" for an option without value records it and moves one token on |
| Scenarios.ShortAttachedValueToken | src/parser.rs:109-114 | "-cVALUE" for a required value records VALUE |
| Scenarios.ShortNextValueToken | src/parser.rs:116-122 | "-c" for a required value takes the next token as the value |
| Scenarios.ShortMissingValueToken | src/parser.rs:116-119 | "-c" last on the line records a missing required value |
| Scenarios.ShortOptionalToken | src/parser.rs:127-136 | "-c" with an optional value takes the rest of the cluster if any, never the next token |
| Scenarios.LongFlagToken | src/parser.rs:69-85 | "--name" for an option without value records it |
| Scenarios.LongEqualValueToken | src/parser.rs:44-47 | "--name=value" for a required value records value |
| Scenarios.LongNextValueToken | src/parser.rs:48-56 | "--name" for a required value takes the next token |
| Scenarios.LongMissingValueToken | src/parser.rs:49-52 | "--name" last on the line records a missing required value |
| Scenarios.LongUnknownToken | src/parser.rs:88-91 | an unresolved "--name" records name as unknown |
| Scenarios.LongNoValueGivenToken | src/parser.rs:60-66 | "--name" with an optional value and no '=' records no value |
| Scenarios.LongOptionalValueToken | src/parser.rs:60-64 | "--name=value" with an optional value records value |
| Scenarios.LongUnwantedValueToken | src/parser.rs:69-75 | "--name=value" for an option without value records "name=" as unknown |
| Scenarios.ClusterToken | src/parser.rs:92-157 | "-series" is read character by character from the cluster's first character |
| Scenarios.PlainOperand | src/parser.rs:158-163 | a token not starting with '-' is an operand |
| Scenarios.LongUndeclared | src/parser.rs:33-34 | without prefix matching, an undeclared long name is unresolved |
| Scenarios.StepShortFlag | src/parser.rs:138-150 | "-c" for a declared option without value records it under the declared id and moves one token on |
| Scenarios.StepShortAttached | src/parser.rs:109-114 | "-cVALUE" for a declared option requiring a value records VALUE and moves one token on |
| Scenarios.StepShortNext | src/parser.rs:116-122 | "-c" for a declared option requiring a value records the next token and moves two tokens on |
| Scenarios.StepShortLast | src/parser.rs:116-119 | "-c" last on the line, requiring a value, ends the line with a missing value |
| Scenarios.StepShortOptional | src/parser.rs:127-136 | "-c" or "-cREST" with an optional value records REST if non-empty and no value otherwise |
| Scenarios.StepLongEq | src/parser.rs:44-47 | "--name=value" for a declared option requiring a value records value |
| Scenarios.StepLongNext | src/parser.rs:48-56 | "--name" for a declared option requiring a value records the next token and moves two tokens on |
| Scenarios.StepLongLast | src/parser.rs:49-52 | "--name" last on the line, requiring a value, ends the line with a missing value |
| Scenarios.StepLongOptional | src/parser.rs:60-66 | "--name" with an optional value and no '=' records no value |
| Scenarios.StepLongOptionalEq | src/parser.rs:60-64 | "--name=value" with an optional value records value |
| Scenarios.StepLongUnwanted | src/parser.rs:69-75 | "--name=value" for a declared option without value records "name=" as unknown |
| Scenarios.StepLongFlag | src/parser.rs:69-85 | "--name" for a declared option without value records it under the declared id |
| Scenarios.StepLongUndeclared | src/parser.rs:33-34 | without prefix matching, "--name" naming no declaration records name as unknown |
| Scenarios.PrefixResolves | src/parser.rs:22-32 | "ver…" prefixes resolve to the one declaration they abbreviate |
| Scenarios.HelpAndFile | src/lib.rs:900-928 | short and long names for one id, an attached and a separate required value, then operands |
| Scenarios.HelpThenOperand | src/lib.rs:931-938 | the first operand ends option scanning; a later "-h" is an operand |
| Scenarios.Everywhere | src/lib.rs:941-962 | with `OptionsEverywhere`, options after operands are still options |
| Scenarios.OptionalValues | src/lib.rs:965-997 | optional values attached to a short name or after '=' on a long name |
| Scenarios.ClusterWithUnknowns | src/lib.rs:1000-1014 | in "-abcd" and "-adbc", unknown characters are recorded and "d" takes the rest of the cluster |
| Scenarios.SharedId | src/lib.rs:1017-1030 | four names under one id are all recorded under it |
| Scenarios.PrefixMatch | src/lib.rs:1033-1045 | with prefix matching, "ver" is ambiguous while "verb" and "versi" resolve |
| Scenarios.ExactMatch | src/lib.rs:1048-1060 | without prefix matching, only whole names match |
| Scenarios.TerminatorEverywhere | src/lib.rs:1063-1081 | "--" ends option scanning even with `OptionsEverywhere` |
| Scenarios.EmptyThenMissing | src/lib.rs:1084-1095 | "--file=" gives an empty value; a final "--file" a missing one |
| Scenarios.AttachedEmptyMissing | src/lib.rs:1098-1119 | "-fx", "-d" with an empty value token, and a final "-f" with its value missing |
| Scenarios.RequiredShortValues | src/lib.rs:1122-1142 | required short values attached, separate, empty and missing |
| Scenarios.RequiredLongValues | src/lib.rs:1145-1165 | required long values after '=', separate, empty and missing |
| Scenarios.OptionalEverywhere | src/lib.rs:1168-1199 | a short and a long name with optional values, before and after an operand |
| Scenarios.NothingDeclared | src/lib.rs:1202-1216 | with nothing declared, every option is unknown and "--" passes the rest through |
| Scenarios.TerminatorAsValue | src/lib.rs:1219-1232 | a required value may be "--"; the next "--" is the terminator |
| Scenarios.OnlyOperands | src/lib.rs:1235-1240 | operands only: nothing is found under any id |
| Scenarios.RepeatedUnknowns | src/lib.rs:1243-1252 | `parse` keeps repeated unknowns; de-duplicating them gives the list the test expects |
| Scenarios.DeduplicatedRepeats | src/lib.rs:630-647 | de-duplication keeps first occurrences in order |
| Scenarios.NonAscii | src/lib.rs:1255-1281 | non-ASCII names and values are handled character by character |
| ByteSlicing.IsLongOptionPrefixAsWritten | src/parser.rs:186-192 | the byte-level test panics only on tokens starting "--", and answers yes only for "--" followed by a byte other than '-' |
| ByteSlicing.AsWrittenAgreesOnAscii | src/parser.rs:186-192 | on ASCII tokens, the byte-level test agrees with the code-point test |
| ByteSlicing.AccentedLongOptionPanics | src/parser.rs:191 | "--äiti=ööö" panics as written but is a long option by code points |
| ByteSlicing.IsValidShortOptionNameAsWritten | src/parser.rs:230-240 | the byte-length test accepts only a single byte, and never '-' |
| ByteSlicing.ShortNameAsWrittenAgreesOnAscii | src/parser.rs:230-240 | on ASCII names, the byte-length test agrees with the code-point test |
| ByteSlicing.EuroShortNameRejected | src/parser.rs:231 | the byte-length test rejects "€", which the code-point test accepts and `option` may declare |

## Left out

- Bytes: `Lexical`, `Registry` and `Parser` read code points. The byte-level behaviour of `src/parser.rs` is not modelled there. Besides the two cases under Findings, this covers `&s[1..2]` at line 247, which panics for a token like "-ä". It also covers `get_long_option(s)[2..]` at line 207, which panics when the body's first character takes one byte and its second more, as for the declared long name "aä" given as "--aä". A token like "--€uro" panics earlier, at line 191, which is the first Finding.
- Lexical.GetLongOption: the panic on a non-option token is a precondition. `parse` only calls it after the long-option test.
- Lexical.IsLongOptionEqualSign: slicing the body from index 2 is modelled with a precondition of two or more characters. `parse` only calls it once a name of at least two characters has matched.
- Registry.OptSpecs.Option: the three `assert!`s and the `panic!` are modelled as `ok == false` with the registry unchanged. The builder's return of `self` is the updated object.
- Registry.OptSpecs.IsUnderLimit: its postcondition leaves out the second comparison, `n < u32::MAX`. That comparison follows from the first, because the limit is itself a `u32`.
- `OptSpecs::getopt` (src/lib.rs:549-555) is left out. It only converts an iterator into strings and calls `parse`. `Parser.Parse` takes the argument sequence directly. `src/parser.rs` as given takes `&Vec<String>` while `getopt` passes an iterator; the model follows `parse`.
- The `arg_limit` counter is not modelled, because `parse` never reads it. `Parser.Classify` states that `arg_limit_exceeded` stays false.
- Unknown duplicates: the documentation of `Args.unknown` (src/lib.rs:634-635) and test 180 say duplicates are filtered. `parse` pushes every unknown, and the model follows `parse`. `Results.Deduplicated` states the documented filtering, and `Scenarios.RepeatedUnknowns` shows both lists; the third row under "## Findings" records the discrepancy.
- Tests: the test suites' query assertions are not restated per command line. They follow from each scenario's exact `Classify` result together with the query contracts in `Results`. The `t_create_optspecs` and `t_is_flag` tests are covered by the contracts of `Registry.OptSpecs` rather than by scenarios.
- `OptValueType::None` is called `NoValue`, so it does not clash with `Option.None`.
- The derived `Debug`, `PartialEq` and `Default` implementations, the crate documentation and `examples/` are left out.
- Exact names under prefix matching: with `PrefixMatchLongOptions`, a declared name that is also a prefix of another declared name is unresolved. `PrefixOfTwoIsUnresolved` states this, as the code does it.

## Findings

| source | as written | input that shows it | evidently intended | confidence | as-written member | corrected member |
|---|---|---|---|---|---|---|
| src/parser.rs:191 | the third character of a token is compared by slicing bytes 2..3, which panics when those bytes split a character | "--äiti=ööö", the first token of test 190 (src/lib.rs:1255-1281) | compare the third character, so that the token is the long option "äiti", as the test expects | not executed; Rust panics when a string slice does not end on a character boundary | ByteSlicing.AccentedLongOptionPanics | Lexical.IsLongOptionPrefix |
| src/parser.rs:231 | a short name is valid only if it is one byte long, so no multi-byte character is; `option` (src/lib.rs:459-463) then panics on the declaration of "€" | "€", which src/parser/tests.rs:90-91 expect to be valid and src/parser/tests.rs:134 declares | one character long, as `option` itself counts characters (src/lib.rs:457) | not executed; `str::len` counts UTF-8 bytes | ByteSlicing.EuroShortNameRejected | Lexical.IsValidShortOptionName |
| src/parser.rs:90 | every unknown name is pushed, also when it is already listed (likewise at src/parser.rs:73 and :155), so a repeated unknown option appears once per occurrence | test 180 (src/lib.rs:1243-1252): "-aaa --foo --foo --bar= --bar=" yields seven unknowns where the test expects three | keep each unknown name once, at its first occurrence, as the documentation of `Args.unknown` (src/lib.rs:634-635) says | not executed; the pushes have no membership test | Scenarios.RepeatedUnknowns | Results.Deduplicated |
