# RV6688BCM router client: NAT rule table and call history

This project models the core of a Python client for the RV6688BCM home router in Dafny. The model covers two parts.

- **The port-forwarding (NAT) rule table.**
  - A rule (`Forward`) has an enabled flag, a name, a public port range, a protocol (`ForwardType`: TCP = 1, UDP = 2, BOTH = 3), a private port range and the last octet of the LAN host's address.
  - The router page holds the table as a line `var vs_list = "...";`. Rules in it are separated by `;` and fields by `-`.
  - To save, the client posts an ordered key/value form whose `h_vs_list` field carries the same text.
  - The client has two command lines. The click one is in `rvcm/nat.py`; the argparse one is in `__main__.py`, with its codec in `router.py`. Both fetch the table, run one of six commands on it (`create`, `enable`, `disable`, `update`, `remove`, `rename`) and post it back when the command reports a change. `create` always posts. The click `update` also posts an unchanged table whenever a rule has the name; see "## Findings".
- **The call history** (`rvcm/calls.py`).
  - `History.parse` finds the `var call_logs =` line of the page and loads a JSON list of record texts.
  - It splits each record into seven comma-separated fields and builds a `Call`. A call has a line number, an upper-cased direction, two parties, a duration in seconds, a date and a status.

The codec is the same in `rvcm/nat.py` and `router.py`. It is modelled once, in `NatTable`, and the table below cites both copies. The same applies to `enable`, `disable`, `remove` and `rename`, modelled once in `NatCommands`. `create` and `update` differ between the two command lines, so each has its own module: `ClickNat` for `rvcm/nat.py` and `MainCli` for `__main__.py`.

Form of the model:
- Rules and calls are datatypes.
- The table (`NAT`) and the history (`History`) are classes whose list field is a `seq`.
- Each command is a method with the source's loop. It is proved against a function on sequences, such as `SetEnabled`, `Removed`, `Renamed` or `Updated`, and the lemmas are stated about that function.
- Python's string primitives (`split`, `join`, `splitlines`, `strip`, `find`, negative slicing, `str(int)`, `int(str)`) are in `PyStr`, with CPython 3.5 semantics.
- A Python exception is the `Err` case of `Result`. A chain of `:-` propagates it the way an uncaught raise would.

Files:
- `wrappers.dfy`: Option, Result and the Python exceptions; `MapUntilError`, a loop that appends each converted element and stops at the first raise.
- `pystr.dfy`: the string primitives and their lemmas.
- `nat_table.dfy`: the rule record, the decoder (`NAT.parse`), the encoders (`Forward.__str__`, `generate_form_fields`) and the round trip.
- `nat_commands.dfy`: `enable`/`disable`, `remove`, `rename`, the shared `update` loop and the listed target address.
- `click_nat.dfy`: the click `create` and `update`.
- `main_cli.dfy`: the argparse `create` and `update`.
- `calls.dfy`: `History.parse`.

## Model

| member | source | states |
|---|---|---|
| NatTable.ForwardType.Code | rvcm/nat.py:26-32 | the protocol codes are TCP = 1, UDP = 2, BOTH = 3, always in 1..3 |
| NatTable.TypeOfCode | router.py:188 | `ForwardType(n)` succeeds exactly for n in 1..3 and gives the member whose code is n |
| NatTable.CodeRoundTrip | router.py:115-121 | `ForwardType(t.value) == t` for every protocol |
| NatTable.Columns | rvcm/nat.py:58-68 | the ten texts between the dashes of `str(frw)`: the flag as 1/0, the name, the public ports, the protocol code, the private ports, the octet, the `0` placeholder and the empty text after the last dash; `NatTable.SplitForwardStr` and `NatTable.DecodeColumns` state what they give back |
| NatTable.ForwardStr | router.py:147-157 | `str(frw)`: the ten column texts joined by `-`; `NatTable.DecodeForwardStr` proves that parsing it gives the rule back |
| NatTable.SplitForwardStr | rvcm/nat.py:58-68 | for a rule with a plain name and non-negative numbers, splitting its text on `-` gives the eight formatted values in order (flag as 1/0, protocol as its code), then `0`, then an empty tail |
| NatTable.RuleEntries | router.py:204-212 | each rule contributes exactly nine form fields |
| NatTable.RuleEntriesMatchColumns | router.py:204-212 | all nine form values of a rule equal the corresponding fields of its `-` text: `enable_i` is 1/0, `type_i` is the code, `private_ip_i` is the last octet |
| NatTable.RuleFields | rvcm/nat.py:135-144 | the per-rule part of the form has 9 fields per rule |
| NatTable.HVsList | rvcm/nat.py:145 | the `h_vs_list` value: the rule texts in table order joined by `;`, and it always ends in `;` |
| NatTable.FormFields | rvcm/nat.py:126-150 | the form has exactly 9N + 10 fields for N rules |
| NatTable.FormFieldAt | router.py:203-212 | field j of rule i sits at position 4 + 9i + j, so rules appear in table order with keys suffixed by their position |
| NatTable.FormFieldsFrame | router.py:199-218 | the form opens with the four fixed preamble pairs, then `h_vs_list` (rule texts joined by `;` plus a trailing `;`) right after the rules, then the five fixed trailer pairs |
| NatTable.DecodeFields | rvcm/nat.py:93-102 | the conversions of one rule's dash-separated fields in source order, raising IndexError or ValueError at the first that fails; `NatTable.DecodeFieldsSucceedsIff` says exactly when it succeeds |
| NatTable.DecodeRule | router.py:182-191 | one pass of the parse loop: a rule text split on `-` and converted |
| NatTable.DecodeRules | rvcm/nat.py:91-103 | the parse loop over all rule texts: on success one rule per text, in order, and otherwise the first error raised |
| NatTable.FirstVsList | router.py:176-179 | the line loop with its `break`: the line found, if any, is one of the page's lines and starts with `var vs_list`; `NatTable.FirstVsListFirst` shows it is the first such line |
| NatTable.RuleSegments | rvcm/nat.py:89 | the found line without its first 15 and last 3 characters, split on `;`; no segments when no line is found |
| NatTable.Decode | router.py:170-192 | the table `NAT.parse` builds from a page, or the exception it raises; `NatTable.RoundTrip` proves it inverts saving |
| NatTable.DecodeFieldsSucceedsIff | rvcm/nat.py:92-102 | a rule decodes exactly when it has at least eight `-` fields, every numeric field is an integer and the protocol code is in 1..3; otherwise parsing raises |
| NatTable.EmptySegmentFails | rvcm/nat.py:93-95 | an empty segment raises ValueError |
| NatTable.DecodeFieldsNonNegative | router.py:182-191 | when no field holds `-`, every number decoded is non-negative |
| NatTable.DecodedNumbersNonNegative | router.py:181-191 | every number a rule text decodes to is non-negative |
| NatTable.DecodeNumerals | rvcm/nat.py:95-102 | fields holding a 1/0 flag and numerals decode to the rule they spell |
| NatTable.DecodeColumns | router.py:147-157 | the fields a rule is written with decode back to that rule |
| NatTable.DecodeForwardStr | rvcm/nat.py:58-68 | decoding the text of an encodable rule gives the rule back |
| NatTable.DecodeRuleStrs | router.py:181-192 | decoding the texts of encodable rules gives the rules back in order |
| NatTable.FirstVsListAbsent | router.py:176-179 | with no line starting `var vs_list`, no line is selected |
| NatTable.FirstVsListFirst | rvcm/nat.py:87-90 | the first line starting `var vs_list` is the one used; later ones are never read |
| NatTable.NoVsListEmptyTable | router.py:175-180 | a page without a `var vs_list` line parses to an empty table |
| NatTable.VsListSegments | rvcm/nat.py:86-90 | on the rendered line, dropping 15 leading and 3 trailing characters and splitting on `;` gives the `;`-pieces of the saved body |
| NatTable.RoundTrip | rvcm/nat.py:86-145 | a non-empty table whose names avoid `-`, `;` and line breaks and whose numbers are non-negative is parsed back from `var vs_list = "<h_vs_list>";` as the same rules in the same order |
| NatTable.EmptyTableDoesNotRoundTrip | router.py:213 | an empty table saves `h_vs_list = ";"`, and parsing that back raises ValueError |
| NatTable.NAT.constructor | rvcm/nat.py:78-79 | a table starts with the given rules |
| NatTable.NAT.Parse | router.py:170-192 | succeeds exactly when the page decodes; the table then holds exactly the decoded rules, with its earlier contents gone; on a raise, the table holds the rules decoded before the first failing segment |
| NatCommands.SetEnabled | rvcm/nat.py:304-306 | `enable`/`disable` keep the table length |
| NatCommands.FlipsIffChanged | rvcm/nat.py:300-312 | `enable`/`disable` save exactly when the table changes, that is, when some rule with the name had the other state |
| NatCommands.SetEnabledIdempotent | __main__.py:118-129 | a second identical `enable`/`disable` changes nothing and does not save |
| NatCommands.SetEnabledLastWins | rvcm/nat.py:315-330 | `disable` after `enable` (or the reverse) leaves the table as the second alone would |
| NatCommands.SetEnabledUndo | rvcm/nat.py:297-312 | when all rules with the name are already in a state, flipping them away and back restores the table |
| NatCommands.SetEnabledCmd | __main__.py:106-129 | the `enable`/`disable` loop sets the flag of the rules with the name and changes nothing else; save iff some such rule flipped |
| NatCommands.Removed | rvcm/nat.py:283-290 | removal never grows the table |
| NatCommands.RemovedHasNoName | rvcm/nat.py:284-288 | no rule with the name survives `remove` |
| NatCommands.RemovedKeepsOthers | __main__.py:174-181 | every rule with another name survives as many times as it was there |
| NatCommands.RemovedAppend | rvcm/nat.py:283-290 | removal goes rule by rule, so survivors keep their relative order |
| NatCommands.RemovedShrinksIff | rvcm/nat.py:284-294 | `remove` saves exactly when some rule has the name, exactly when the table shrinks; otherwise the table is unchanged |
| NatCommands.RemoveCmd | __main__.py:171-185 | the `remove` loop replaces the table with the other rules in order; save iff some rule matched |
| NatCommands.Renamed | rvcm/nat.py:341-345 | `rename` keeps the table length |
| NatCommands.RenamedDropsOldName | rvcm/nat.py:341-345 | after a rename to a different name no rule keeps the old name |
| NatCommands.RenameBack | __main__.py:189-193 | a rename to an unused name is undone by renaming back |
| NatCommands.RenameChangesIff | rvcm/nat.py:337-349 | a rename to a different name changes the table exactly when some rule has the old name |
| NatCommands.RenameCmd | __main__.py:186-197 | the `rename` loop renames every rule with the old name and nothing else; save iff some rule matched |
| NatCommands.PatchedChangesIff | __main__.py:149-163 | patching a rule changes it exactly when one of the supplied values differs from the field |
| NatCommands.Patched | __main__.py:149-162 | a rule with every supplied option written over the field it names, and the other fields kept |
| NatCommands.Differs | __main__.py:149-163 | some supplied option differs from the rule's field, so that one of the `is not None and !=` tests fires |
| NatCommands.Updated | rvcm/nat.py:247-266 | the table after `update`: same length, every rule with the name patched, the others kept |
| NatCommands.UpdateSavesIffChanged | __main__.py:143-170 | `update` saves exactly when the table changes |
| NatCommands.UpdateIdempotent | __main__.py:146-163 | a second identical `update` changes nothing and does not save |
| NatCommands.UpdateKeepsEncodable | rvcm/nat.py:249-263 | an update with non-negative values keeps every rule encodable, so the saved table still round-trips |
| NatCommands.SetIfGiven | __main__.py:149-151 | one `is not None and !=` test: the new field value, and whether it moved |
| NatCommands.PatchRule | __main__.py:149-163 | the tests for one rule write each supplied, differing value and report whether any did |
| NatCommands.UpdateCmd | __main__.py:143-170 | the `update` loop patches every rule with the name and nothing else; save iff some supplied value differed |
| NatCommands.TargetIp | __main__.py:82-103 | the listed address: the router's LAN address split on `.`, its last section replaced by the rule's octet, joined by `.` |
| NatCommands.TargetIpReplacesLast | __main__.py:82-103 | the listed address is the router's local address with its last dotted section replaced by the rule's octet |
| NatCommands.TargetIpNoDot | rvcm/nat.py:174-195 | an address without a dot is replaced outright by the rule's octet |
| ClickNat.SectionGuardIff | rvcm/nat.py:217 | the length guard on the octet text accepts exactly the numbers below 1000 |
| ClickNat.Create | rvcm/nat.py:217-228 | a refused octet saves nothing and leaves the table; otherwise exactly one disabled rule with the given values is appended at the end, the others untouched, and the table is saved |
| ClickNat.CreatedRuleEncodable | rvcm/nat.py:219-227 | a created rule with a plain name survives the round trip |
| ClickNat.ClickPatch | rvcm/nat.py:238-240 | the click `update` always supplies a protocol |
| ClickNat.PatchRuleAsWritten | rvcm/nat.py:249-266 | the tests for one rule, with the protocol test that is never equal: the protocol is always written |
| ClickNat.Update | rvcm/nat.py:245-273 | the click `update` patches every rule with the name, protocol included, and saves iff some rule has the name |
| ClickNat.UpdateResetsProtocol | rvcm/nat.py:238-266 | a port-only update of a TCP rule resets its protocol to BOTH, where the intended update keeps TCP |
| ClickNat.UpdateSavesUnchangedTable | rvcm/nat.py:264-273 | when a rule has the name but no value differs, the click `update` leaves the table as it was and still posts it |
| MainCli.Create | __main__.py:132-142 | exactly one disabled rule with the given values and protocol is appended at the end, the others untouched, and the table is always posted |
| MainCli.MainPatch | __main__.py:57-65 | the argparse `update` never supplies an address |
| MainCli.Update | __main__.py:143-170 | the argparse `update` patches the rules with the name and saves iff some supplied value differed |
| MainCli.UpdateKeepsAddress | __main__.py:149-163 | `update` never changes a rule's octet, whatever `--target` is |
| MainCli.UpdateIgnoresTarget | __main__.py:63 | `update web --target 20` on a rule at octet 10 leaves the table unchanged and unsaved, where applying it would give 20 |
| Calls.PayloadFirstMatch | rvcm/calls.py:78-82 | only the first line holding `var call_logs =` counts: the text after the keyword, without its last character |
| Calls.PayloadNoKeyword | rvcm/calls.py:77-83 | with no line holding the keyword the payload is `[]` |
| Calls.Payload | rvcm/calls.py:76-82 | the JSON text `History.parse` loads: from the first line holding `var call_logs =`, the text after the keyword without its last character, and `[]` when no line holds it |
| Calls.KeywordLinePayload | rvcm/calls.py:79-82 | a keyword line followed by a body and one closing character yields the body |
| Calls.StripAll | rvcm/calls.py:90 | stripping keeps the number of fields |
| Calls.RecordNeedsSevenFields | rvcm/calls.py:90 | a record that does not split into seven fields raises ValueError |
| Calls.DecodeJoinedRecord | rvcm/calls.py:90 | seven comma-free texts joined by commas decode as the seven fields they strip to |
| PyStr.StripPadded | rvcm/calls.py:90 | `strip` removes any whitespace before and after a text it leaves unchanged |
| Calls.DecodePaddedRecord | rvcm/calls.py:90 | seven stripped, comma-free fields, each with any whitespace before and after it, joined by commas, decode as the fields without the padding |
| Calls.DecodeCommaSpaceRecord | rvcm/calls.py:84-90 | seven stripped, comma-free fields written `f0, f1, ..., f6`, the separator the source's example uses, decode as those fields |
| PyStr.IntOfIntStr | rvcm/calls.py:91 | a numeral converts to its number |
| Calls.LineNumberOf | rvcm/calls.py:91 | a word, a space and a numeral give the numeral's number |
| Calls.ExampleLineNumber | rvcm/calls.py:91 | `line 0` gives line number 0 |
| Calls.LineNumber | rvcm/calls.py:91 | `int(line.split()[1])`: IndexError with fewer than two words, ValueError when the second word is no numeral |
| Calls.AfterColonOf | rvcm/calls.py:92-93 | `Tag:text` gives `text` |
| Calls.AfterColon | rvcm/calls.py:92 | `field.split(':')[1]`: IndexError without a colon, and otherwise a text without a colon |
| Calls.FirstAbonent | rvcm/calls.py:93 | `findall(text)[0]`: IndexError when the abonent pattern does not match |
| Calls.UnitAmountOf | rvcm/calls.py:96 | a numeral followed by a one-letter unit gives the number |
| Calls.UnitAmount | rvcm/calls.py:96 | `int(x[:-1])` of one unit, or nothing where `int` raises |
| Calls.HmsSeconds | rvcm/calls.py:96 | hours, minutes and seconds as `h * 3600 + m * 60 + s`, and ValueError when an amount did not convert |
| Calls.SplitUnits | rvcm/calls.py:95 | `h:m:s` splits into its three units |
| Calls.SpanSeconds | rvcm/calls.py:95-96 | a span that does not split into three units raises ValueError, and otherwise the units in seconds |
| Calls.SecondsOfSpan | rvcm/calls.py:94 | the span of a duration is what follows its first colon |
| Calls.Seconds | rvcm/calls.py:94-96 | a duration field without a colon raises ValueError, and otherwise its span in seconds |
| Calls.SpanSecondsOf | rvcm/calls.py:95-96 | a span of three converting units is h * 3600 + m * 60 + s seconds |
| Calls.SecondsOf | rvcm/calls.py:94-96 | `Tag:Hh:Mm:Ss` whose three units convert to H, M and S lasts H * 3600 + M * 60 + S seconds |
| Calls.NatSpanSeconds | rvcm/calls.py:95-96 | a span of three numerals, each followed by one unit letter, such as `0h:15m:34s`, lasts H * 3600 + M * 60 + S seconds |
| Calls.AssembleCall | rvcm/calls.py:91-105 | the call built from the converted fields, raising the first exception in source order: line number, calling party, called party, duration, date |
| Calls.DecodeCallFields | rvcm/calls.py:90-105 | seven stripped fields unpacked and converted, and ValueError for any other count; `Calls.DecodeCallFieldsFails` lists its raise paths |
| Calls.DecodeRecord | rvcm/calls.py:89-105 | one record text split on `,`, each field stripped, then converted; `Calls.DecodeRecordOf` gives its result for a record of the router's shape |
| Calls.DecodeCallFieldsFails | rvcm/calls.py:90-103 | a record without seven fields is no call, and neither is one with a line number that does not convert, a party field without a colon or without an abonent match, a duration that does not convert, or a date `strptime` rejects |
| Calls.DecodeRecordOf | rvcm/calls.py:84-105 | a record of seven comma-separated fields (`word N`, status, direction, `Tag:calling`, `Tag:called`, `Tag:Hh:Mm:Ss`, date), each with any whitespace before and after it, such as the space after `, `, decodes to the call with line number N, the direction upper-cased, the first abonent match of each party, H * 3600 + M * 60 + S seconds, the date and the status as given |
| Calls.NoKeywordEmptyHistory | rvcm/calls.py:76-83 | a page without the keyword parses to an empty history |
| Calls.OneCallPerRecord | rvcm/calls.py:88-106 | a parsed history holds one call per record, each the decoding of its record, in record order |
| Calls.ParseHistory | rvcm/calls.py:75-106 | the calls `History.parse` builds from a page, one per record in order, or the first exception; ValueError when the payload is no JSON list |
| Calls.FindPayload | rvcm/calls.py:76-82 | the line scan, with its `break`, finds the payload |
| Calls.DecodeRecords | rvcm/calls.py:88-105 | the record loop builds the decoded list, or stops with the first error |
| Calls.History.constructor | rvcm/calls.py:72-73 | a history starts with the given calls |
| Calls.History.Parse | rvcm/calls.py:75-106 | succeeds exactly when the page parses; `calls` is then replaced wholesale by the parsed calls; on a raise `calls` is unchanged |
| PyStr.Upper | rvcm/calls.py:99 | upper-casing keeps the length, maps every lower-case ASCII letter to its capital and keeps every other character |
| PyStr.UpperIdempotent | rvcm/calls.py:99 | upper-casing twice is upper-casing once |
| PyStr.NatStrLength | rvcm/nat.py:217 | a numeral has at most k digits exactly when the number is below 10^k |
| PyStr.ParseIntStr | rvcm/nat.py:97-102 | `int(str(i)) == i` |
| PyStr.ParseIntNoMinus | router.py:186-191 | a text without `-` never converts to a negative number |
| PyStr.SplitJoin | rvcm/nat.py:89 | splitting a join gives the parts back when no part holds the separator |
| PyStr.JoinSplit | __main__.py:103 | joining the pieces of a split gives the text back |
| PyStr.SplitOnceAt | rvcm/calls.py:94 | `(a + sep + b).split(sep, 1) == [a, b]` when `a` holds no separator |
| PyStr.SplitWsTwoWords | rvcm/calls.py:91 | `(a + " " + b).split() == [a, b]` for two words |

## Left out

- HTTP transport and Digest authentication (`retrieve`, `save`, `update_nat`, `get_nat`, `apply`) are left out. Each command method takes the fetched table and answers whether it would be posted.
- All printing is left out: the "updating"/"nothing to ..." messages, the listing's column formatting and the `upd` flag's effect on the click `update`'s per-rule message.
- `Info.parse` (XPath scraping), the JSON/pretty output, and the click/argparse wiring and packaging are left out.
- Object identity is not modelled. Rules are values, and a change in place is the list with one element replaced. `forwards.clear()` and list aliasing therefore have no counterpart.
- ClickNat.Create: the click `create` passes its port and octet arguments on as texts, unconverted; the model takes natural numbers. The saved text is the same for a canonical numeral. A text such as `abc` or `007` that passes the length guard is not modelled.
- ClickNat.Create: the refused octet raises an AssertionError in the source; the model reports `false` and leaves the table as it was, since nothing is fetched or posted.
- MainCli.Create, ClickNat.Create, ClickNat.ClickPatch: the `BOTH` default of the protocol argument or option (`__main__.py`, `rvcm/nat.py`) is not modelled as a default; the caller supplies the protocol, and `ClickNat.ClickPatch` always supplies one.
- MainCli.Create: the argparse conversion `ForwardType[x.upper()]` of the protocol text is not modelled; the method takes the converted protocol.
- `json.loads`, the abonent regular expression's `findall` and `datetime.strptime` are parameters of `History.parse` (`Library`). `loads` is taken to give a list of texts; a JSON value other than a list of texts is not modelled. The date is kept as its text; only whether `strptime` accepts it is modelled.
- PyStr.ParseInt: `int()` is modelled for ASCII digits with surrounding whitespace and a sign, as in Python 3.5. Non-ASCII decimal digits are not modelled.
- PyStr.Upper: `str.upper()` is modelled for ASCII letters only.
- Calls.DecodeRecordOf: the record example in the source comment (`line 0, Answered, IN, Calling:...(55.66.77.88), Called:...(11.22.33.44), Duration:0h:15m:34s, <date>`) is an instance of this lemma, with one space before each field after the first, nothing after any field, and 934 seconds from 0, 15 and 34 with the unit letters `h`, `m`, `s`. A separate lemma about the literal text is not part of the model, because evaluating the string functions on a literal of this length is too costly for the verifier.
- The round trip assumes the router renders the saved `h_vs_list` back as `var vs_list = "<h_vs_list>";`. The router's own rendering is not part of this model. An empty table does not round-trip; see `NatTable.EmptyTableDoesNotRoundTrip`.

## Findings

| source | as written | input that shows it | evidently intended | confidence | as-written member | corrected member |
|---|---|---|---|---|---|---|
| rvcm/nat.py:238-266 | `--proto` defaults to the text `BOTH`, and `frw.type != proto` compares an enum with a text, which is never equal. Every rule with the name gets the option's protocol, and the table is posted whenever a rule has the name. | `update web --max-dst-port 8081` on a TCP rule `web`: the rule becomes BOTH | only a supplied protocol that differs is written, and the table is posted only when something changed | not executed | ClickNat.Update, ClickNat.UpdateResetsProtocol, ClickNat.UpdateSavesUnchangedTable | NatCommands.UpdateCmd, NatCommands.UpdateSavesIffChanged |
| __main__.py:63 | `--target` is parsed, but the update loop (lines 149-163) has no test for it, so a rule's address is never changed | `update web --target 20` on a rule at octet 10: nothing changes and nothing is posted | the rule's octet becomes 20 and the table is posted | not executed | MainCli.Update, MainCli.UpdateIgnoresTarget | NatCommands.UpdateCmd, NatCommands.PatchedChangesIff |
