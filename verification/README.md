# sockmon: sorted connections, owners, fields, filters and frames

This project models the part of sockmon that decides what appears on the screen, and
proves what the program is for: the list is the stable sort of what the kernel sent in a
dump of one family, the frame shows exactly the connections that pass the filters, moving a
field never makes the screen lie, and every run of the main loop does what a function of its
keys and of the kernel's answers says, and, when it leaves the loop, frees once what it
allocated for connections, owners, the owner table and filters.

| file | what it models |
|---|---|
| `Types.dfy` | connections, attributes, fields, filters |
| `StableSort.dfy`, `Comparators.dfy` | what a stable sort is, without mentioning insertion; the comparators and the order of the connection list |
| `Ring.dfy` | the intrusive circular list, sorted insertion, draining, allocation |
| `BigEndian.dfy`, `Prefix.dfy` | bytes as big-endian numbers, prefix masks |
| `Owners.dfy` | the chained hash table from inodes to processes |
| `Netlink.dfy`, `Dump.dfy` | the attribute walk, a whole dump, building the owner table |
| `FilterText.dfy`, `FilterDialog.dfy`, `FilterMatch.dfy`, `Keys.dfy` | what a typed filter means, the dialogs, the evaluators, key codes |
| `FieldEditor.dfy`, `FieldView.dfy`, `UiModel.dfy`, `Editor.dfy` | moving fields, the preview, every key as a function on states and as a handler on the mutable context |
| `FilterMemory.dfy` | who owns the memory of filters, and closing the screen |
| `Layout.dfy`, `Frame.dfy` | columns and rows as functions, the drawing loops on a buffer |
| `Monitor.dfy` | the main loop and the cleanup behind it |
| `SortedLists.dfy`, `Records.dfy`, `TypedFilters.dfy`, `ShownFrames.dfy`, `KeyTable.dfy` | what the functions of the model mean in the user's and the kernel's terms: values in order, records of what was sent, typed characters, fields that are switched on, keys by their codes |
| `FilteredFrames.dfy`, `CrashRuns.dfy` | what a typed filter does to the next frame; runs that follow a null pointer, key by key |

Where the program changes things in place, the model is a class or a method with loops,
proved equal to a function of the old state (`AddConnInfo` to `Inserted`, `FpCommon` to
`CommonOutcome`, `ShouldStop` to `Step`, `DrawFrame` to `FrameRow`, `Run` to `Loop`, ...).
The lemmas are about those functions; five files say what the functions mean without using
them, so that a function and the loop beside it cannot be wrong in the same way. Allocated memory is tracked by ghost sets (`live` for
list entries, owner nodes and the blocks of filters, `arrays` for the bucket array): freeing
needs the block to be there, so nothing can be freed twice, and an empty set at the end
means that nothing is left.

## What is assumed

- Allocation succeeds, and there are fewer than 2^31 sockets (`nr_sockets` and `nr_conns` are C `int`s).
- The answers of the system are parameters: a refresh is given the process directories with
  their inodes, and the datagrams with their messages. Keys are a character stream, each
  dialog's line being typed to its end.
- A message's payload is a concatenation of attributes padded to 4 bytes. The host is little-endian.
- `inet_pton` and `inet_ntop` are parameters. `IsResolver` says what the round trip of
  address filters needs of them; nothing else uses it.
- Command names are C strings of 8-bit characters, which `char` reads as signed; so is what any string column reads.
- A wait that ends without a key answers `ERR`, one more code that no screen knows.

## Where the program does not do what it seems to promise

Each of these is stated as the exact condition, proved in both directions, with an input
that fails.

- `UiModel.StepKeepsFiltersReady`: an operator without an operand is accepted and switches on
  a filter that may not exist (`src/draw.c:1335-1370`). It is the only way to get there. Input: `UiModel.BareOperatorExample`; `CrashRuns.BareOperatorRun` is a whole run.
- `UiModel.StepKeepsSortReady`: a heading row, which has no comparator, can be made the sort key
  (`src/input.c:253-272`). It is the only way to get there. Input: `UiModel.HeadingKeyExample`, the keys `f`, `s`, `q` at start; `CrashRuns.HeadingRun` is a whole run.
- `UiModel.PageKeysExactly`: on fewer than 3 lines the page keys leave the table, unless it has one row.
  Input: `UiModel.PageKeysExample`.
- `Comparators.MixedFamilies`: addresses of different families are compared by the first one's
  family, which is antisymmetric only where both readings agree (`src/draw.c:935`). Input: `Comparators.MixedFamiliesExample`.
- `FilterText.TextRoundTrip`: a printed string filter reads back as itself exactly for `=`, `~`, `!~` and
  when it fits the 80-byte buffer. The string dialog also accepts `!=`, `<`, ... which are printed as `?`.
  Input: `FilterText.TextRoundTripExample`, the line `!=a`. The numeric dialog likewise accepts `~` and `!~`
  (`FilterText.NumberRoundTrip`; input: `FilterText.NumberRoundTripExample`). What such a filter is, is no comparison
  at all: it rejects every connection (`FilterMatch.ForeignMatchesNothing`).
- `Owners.ShiftZeroExactly`: with at most one socket the best shift is 0, and the hash shifts
  a 32-bit word by 32, which C leaves undefined. The model reads it as the one bucket that is meant. Input: `Owners.ShiftZeroExample`.
- `FilterDialog.ReadOperand`: an operand of exactly 80 accepted characters makes the dialog write
  its terminator one byte behind the buffer (`src/draw.c:1304-1311`), and no other operand does.
  Input: `FilterDialog.OverrunExample`, `=` and 80 letters.

What follows from the first two: a refresh follows a null pointer exactly as `Monitor.CallsNull`
says, that is if two connections of a dump carry the group of a heading that is the sort key, or
if drawing a connection reaches a switched-on filter that does not exist before another filter
rejects it. `Monitor.Run` then ends with `NullCall`, or with `Overrun` in the last case above,
and the model says no more about that run: what it says of the cleanup is for runs that leave
the loop (`Monitor.Leaves`). `Monitor.SafeRun` says which keys never lead to a null pointer.

## Model

| member | source | states |
|---|---|---|
| `StableSort.ArriveIsTheStableSort` | src/draw.c:3083-3123 | under a strict weak order, a sequence is the stable sort of the arrivals if and only if it is what insertion one by one produces |
| `StableSort.InsertionPointUnique` | src/draw.c:3103-3122 | there is one place where everything before may stay and what follows must give way |
| `Comparators.ListOrderIsStrictWeakOrder` | src/draw.c:3092-3118 | ascending or descending, with or without a key, the order of the list is a strict weak order on connections of one family |
| `Comparators.KeylessComeLast` | src/draw.c:3092-3118 | whatever arrives, the list is the insertion of those with the key's attribute, followed by those without it in arrival order |
| `Comparators.NoKeyKeepsArrivalOrder` | src/draw.c:3095-3098 | without a key the list is in arrival order |
| `SortedLists.ArrivalsAreSortedBy` | src/draw.c:3100-3122 | whatever arrives of one family, the list has it with the values of the key in ascending or descending order as asked for, entries without the attribute last, and ties in arrival order; values are numbers, address numbers, or strings by their first difference |
| `SortedLists.StableSortIsSorted` | src/draw.c:3100-3122 | every stable sort by the comparators is sorted in that sense |
| `SortedLists.OneAndTwo` | src/draw.c:3113-3119 | 1 and 2 are listed as 1, 2 when ascending and as 2, 1 when descending |
| `SortedLists.HighCharactersFirst` | src/draw.c:852-865 | characters above 127 come before all others |
| `SortedLists.LongAddressReads` | src/draw.c:901-926 | the number of an IPv6 address has its first 32-bit word weigh most |
| `SortedLists.NetworkWordReads` | src/draw.c:906-907 | a 32-bit word has its first byte weigh most |
| `Comparators.FieldCompareIsTotalPreorder` | src/draw.c:814-899 | every comparator is antisymmetric in sign, transitive and reflexive on values of one family |
| `Comparators.FirstDifferenceDecides` | src/draw.c:852-865 | string comparison is lexicographic: the first differing character decides, the terminator counting as 0 |
| `Comparators.TextCompareSigns` | src/draw.c:852-865 | string comparison is antisymmetric and 0 only for equal strings |
| `Comparators.TextCompareTransitive` | src/draw.c:852-865 | string comparison is transitive |
| `Comparators.SortText` | src/draw.c:852-865 | the pointer loop over terminated strings computes that comparison |
| `Comparators.SortAddress` | src/draw.c:901-926 | comparing word by word after byte swapping is comparing the addresses as 32- or 128-bit big-endian numbers |
| `Comparators.MixedFamilies` | src/draw.c:928-948 | comparing addresses of different families is antisymmetric if and only if the two readings agree |
| `Comparators.MixedFamiliesExample` | src/draw.c:928-948 | two addresses that first differ in byte 4 tie one way round and not the other |
| `Comparators.SortFunc` | src/draw.c:814-899 | the comparator of a field's type computes the comparison its values stand for; only a row that has a comparator may be compared by |
| `Comparators.CommandColumn` | src/proc.c:101-139 | the column of command names, which are read up to a NUL or a newline, has only C strings to compare |
| `Comparators.StopsAt` | src/draw.c:3107-3119 | the loop body stops exactly in front of an entry that must come after the new one, and needs the comparator only for entries that carry the group |
| `BigEndian.AppendWord` | src/draw.c:906-918 | a network word continues the number that the bytes before it form |
| `BigEndian.ByteValueIsTheByte` | src/draw.c:907-918 | a byte's bits, weighed from the most significant one, give the byte's own value |
| `BigEndian.SamePrefixSameQuotient` | src/draw.c:2090-2106 | two bit strings agree on k leading bits if and only if their numbers agree when the rest is divided away |
| `ConnRing.ListAdd` | src/list.h:29-35 | the four pointer writes link an entry between two others and touch nothing else |
| `ConnRing.ListDel` | src/list.h:42-46 | unlinking joins the neighbours and touches nothing else |
| `ConnRing.LinkBefore` | src/list.h:29-40 | linking into a well-formed turn gives the turn with the entry spliced in, next and prev inverse everywhere |
| `ConnRing.Unlink` | src/list.h:48-56 | unlinking from a well-formed turn gives the turn without the entry |
| `ConnRing.ConnList.constructor` | src/main.c:9-20 | a new list is a ring of its head alone |
| `ConnRing.ConnList.AddTail` | src/list.h:37-40 | inserting in front of an entry or the head keeps the ring well formed and splices the entry in there |
| `ConnRing.ConnList.Del` | src/list.h:53-56 | deleting keeps the ring well formed and all other entries in order |
| `ConnRing.ConnList.IsEmpty` | src/list.h:64-67 | the pointer test holds exactly for the empty list |
| `ConnRing.ConnList.FindPosition` | src/draw.c:3103-3120 | the walk ends at the insertion point of the order |
| `ConnRing.ConnList.AddConnInfo` | src/draw.c:3083-3123 | the ring's contents become the old contents with the connection inserted at the insertion point, behind its ties |
| `ConnRing.ConnList.DropFront` | src/draw.c:327-329 | one round of a draining loop unlinks, frees and counts off the front entry, and the saved next pointer is the new front |
| `ConnRing.ConnList.DrainNext` | src/list.h:86-90 | the safe iteration visits the entries one by one in list order, freeing each |
| `ConnRing.ConnList.Drain` | src/main.c:22-31 | the loop at exit terminates, frees each entry once in order and leaves an empty ring and a count of 0 |
| `Owners.HashInTable` | src/proc.c:68-72 | for every table size the hash of any inode is a bucket of the table |
| `Owners.HashIs` | src/proc.c:68-72 | the hash is the upper bits of the product with 2654435761 modulo 2^32 |
| `Owners.OwnersOfLog` | src/proc.c:74-99 | an inode is known exactly when it is not 0 and was recorded |
| `Owners.BucketDecides` | src/proc.c:74-99 | searching only the bucket of an inode finds what the whole table holds for it |
| `Owners.OwnersCount` | src/proc.c:164-172 | without inode 0 the map has as many entries as nodes were recorded |
| `Owners.ShiftZeroExactly` | src/proc.c:324-333 | the best shift is 0 if and only if there is at most one socket |
| `Owners.ShiftZeroExample` | src/proc.c:303-306 | one socket gives shift 0, two do not |
| `Owners.OwnerTable.Lookup` | src/proc.c:74-99 | finds an inode exactly when the map has it, with the owner the map gives |
| `Owners.OwnerTable.LinkNode` | src/proc.c:164-171 | appending to one chain keeps all chains acyclic, disjoint and in their hash's bucket |
| `Owners.OwnerTable.Add` | src/proc.c:141-177 | the map gains the pair unless the inode is known: the first owner wins; the count follows |
| `Owners.OwnerTable.FreeChain` | src/proc.c:314-319 | every node of a chain is freed once and counted off |
| `Owners.OwnerTable.Free` | src/proc.c:293-338 | nothing happens unless owners are asked for; otherwise the table ends empty, every node freed, and on request with the smallest size that is a power of two and not below the socket count, the old bucket array being freed and the new one the only one |
| `Owners.OwnerTable.Exit` | src/proc.c:373-383 | at exit the nodes that are left and the bucket array are freed |
| `Owners.BestShift` | src/proc.c:303-306 | the loop finds the smallest power of two not below the socket count |
| `Prefix.BuildMask` | src/draw.c:2018-2031 | for every prefix length the mask has exactly that many leading ones |
| `Prefix.CountPrefix` | src/draw.c:1176-1187 | counts the leading ones of a mask up to the address length |
| `Prefix.CountedPrefix` | src/draw.c:1176-1187 | counting a prefix mask back gives the prefix, cut at the address length |
| `Prefix.MaskedBytes` | src/draw.c:2094-2098 | a masked byte comparison agrees on exactly the masked bits |
| `Prefix.MatchAddress` | src/draw.c:2078-2107 | the octet loop accepts exactly the same family and agreement on every masked bit, and `!=` the complement |
| `Prefix.PrefixFilterMeaning` | src/draw.c:2078-2107 | with a prefix mask an address filter compares the leading bits, seen as big-endian numbers |
| `Prefix.PrefixAgreement` | src/draw.c:2090-2106 | agreeing under a prefix mask is agreeing on that many leading bits |
| `Prefix.PrefixMaskUnique` | src/draw.c:2018-2031 | there is one mask for each prefix length |
| `FilterText.DecimalOfDigits` | src/draw.c:1201-1209 | reading a printed number gives the number |
| `FilterText.NumberRoundTrip` | src/draw.c:1201-1209 | for every 64-bit operand, typing the printed filter back rebuilds it if and only if its operator is one of the six numeric ones |
| `FilterText.NumberRoundTripExample` | src/draw.c:1201-1208 | `~` and any number is accepted for a number, prints with a `?`, and that is rejected |
| `FilterText.TextRoundTrip` | src/draw.c:1196-1200 | for every printable non-empty string, the printed filter reads back as itself if and only if its operator is `=`, `~` or `!~` and it fits the buffer |
| `FilterText.TextRoundTripExample` | src/draw.c:1196-1200 | the line `!=a` is accepted for a string, prints as `?a`, and that is rejected |
| `FilterText.AddressRoundTrip` | src/draw.c:1166-1195 | a printed address filter reads back as one that accepts the same addresses |
| `TypedFilters.TypedEqual` | src/draw.c:1251-1363 | `=` and a 64-bit number leave a filter that accepts exactly that number |
| `TypedFilters.TypedUnequal` | src/draw.c:1262-1272 | `!=` and a number: exactly the others |
| `TypedFilters.TypedAbove` | src/draw.c:1273-1286 | `>` and a number: exactly what is greater |
| `TypedFilters.TypedAtLeast` | src/draw.c:1273-1286 | `>=` and a number: exactly what is not less |
| `TypedFilters.TypedBelow` | src/draw.c:1273-1290 | `<` and a number: exactly what is less |
| `TypedFilters.TypedAtMost` | src/draw.c:1273-1290 | `<=` and a number: exactly what is not greater |
| `TypedFilters.DigitsRead` | src/draw.c:1327-1331 | the digits of a number, one after the other |
| `TypedFilters.OtherCharactersRefused` | src/draw.c:1326-1333 | a number with any character but digits and blanks is refused and the filter kept |
| `TypedFilters.TypedSame` | src/draw.c:1486-1630 | `=` and a string: exactly that string |
| `TypedFilters.TypedPart` | src/draw.c:1607-1630 | `~` and a string: exactly the strings it is a part of |
| `TypedFilters.TypedNoPart` | src/draw.c:1607-1630 | `!~` and a string: exactly the others |
| `TypedFilters.TypedHost` | src/draw.c:2002-2053 | `=` and an address without a slash accept exactly that address, `!=` exactly the others |
| `TypedFilters.TypedPrefix` | src/draw.c:2008-2053 | with a slash and a length up to 128, exactly the addresses that agree on that many leading bits, or the others |
| `TypedFilters.RefusedAddress` | src/draw.c:2011-2040 | a longer prefix, and what stands for no address, is refused and the filter kept |
| `TypedFilters.NumberPrints` | src/draw.c:1201-1209 | the printed numeric filters, character by character |
| `TypedFilters.TextPrints` | src/draw.c:1196-1200 | the printed string filters |
| `TypedFilters.AddressPrints` | src/draw.c:1166-1195 | the printed address filters |
| `TypedFilters.TypedChoice` | src/draw.c:1514-1555 | going down k times, a blank and `q` leave a filter that accepts exactly the k-th value offered, or exactly that flag |
| `TypedFilters.ChoiceKeys` | src/draw.c:1516-1534 | up takes a step down back, a second blank an earlier one, `Q` and escape end the dialog |
| `TypedFilters.TypedDelay` | src/input.c:41-63 | a typed delay is taken exactly from 1 to 255 |
| `FilterText.UnknownOperator` | src/draw.c:1251-1298 | the `?` printed for an operator of another type is rejected when typed |
| `FilterText.LineSplits` | src/draw.c:1364-1370 | a line and what follows it make up the input |
| `FilterDialog.ReadOperator` | src/draw.c:1251-1298 | reads the longest operator and puts back the character behind it |
| `FilterDialog.ReadOperand` | src/draw.c:1299-1334 | accepts exactly well-formed operands, and then holds their text or their value modulo 2^64; it writes behind its buffer if and only if the operand fills it |
| `FilterDialog.OverrunExample` | src/draw.c:1304-1311 | `=` and 80 printable characters are such a line for a string |
| `FilterDialog.FpCommon` | src/draw.c:1214-1386 | on every path consumes exactly the typed line; unless the operand fills the buffer the outcome is that of the line, a rejected line leaving the filter as it was; says whether a new filter was made |
| `FilterDialog.FpAddr` | src/draw.c:1914-2076 | the same for addresses with an optional prefix length |
| `FilterDialog.ReadAddress` | src/draw.c:2008-2053 | splits at the last slash, reads the prefix length, builds the mask and tries IPv4 before IPv6 |
| `FilterDialog.DecodeFilter` | src/draw.c:1157-1212 | computes the printed form of a filter |
| `FilterDialog.FpChoice` | src/draw.c:1486-1558 | consumes the keys up to the one that ends it, and fails only when nothing is selected |
| `FilterDialog.ChoosesOffered` | src/draw.c:1514-1537 | whatever is typed, only offered values join the selection |
| `FilterDialog.ReadDelay` | src/input.c:18-78 | consumes exactly the typed line and takes the delay from it if and only if it is a number from 1 to 255 |
| `FilterMatch.FilterApply` | src/draw.c:1388-1438 | an evaluator accepts exactly the values its filter stands for; a choice of flags (`src/draw.c:1694-1701`) stands for exactly those flags |
| `TypedFilters.Complements` | src/draw.c:1401-1410 | `!=`, `>=` and `<=` accept exactly what `=`, `<` and `>` of the same operand reject |
| `TypedFilters.Monotone` | src/draw.c:1401-1410 | above an accepted value `>` and `>=` accept everything, below one `<` and `<=` do |
| `TypedFilters.ContainsIsPart` | src/draw.c:1607-1630 | a string contains another exactly if it is something, the other, and something |
| `FilterMatch.FindText` | src/draw.c:1607-1630 | finds a substring exactly when it occurs |
| `FilterMatch.ForeignMatchesNothing` | src/draw.c:1401-1410 | an operator that does not belong to the type of its filter makes it reject every value |
| `FilterMatch.SomeNumberMatches` | src/draw.c:1401-1410 | a numeric filter matches some 64-bit value if and only if its operator belongs to numbers and is not below 0 or above the largest |
| `FilterMatch.SomeTextMatches` | src/draw.c:1607-1630 | a string filter matches some string if and only if its operator belongs to strings |
| `FieldEditor.PreviewShowsMove` | src/draw.c:3036-3046 | the index arithmetic of the preview names, at each row, the row that a move brings there |
| `FieldEditor.MoveConserves` | src/input.c:314-343 | a move is a permutation of the fields |
| `FieldEditor.MoveBack` | src/input.c:314-343 | moving back restores the table row by row |
| `FieldEditor.SwapExtendsMove` | src/input.c:332-340 | one more adjacent swap extends the rotation by one row, for the fields and for every tracked row |
| `FieldView.CommitShowsPreview` | src/input.c:314-343 | committing a move leaves every row on the screen as the preview had it, sort marker included |
| `FieldView.SelectShowsSame` | src/input.c:345-360 | selecting a field changes nothing on the screen |
| `FieldView.CursorVisible` | src/draw.c:3007-3029 | with at least 5 lines the scroll arithmetic keeps the cursor's row on the screen |
| `KeyTable.RowsFill` | src/draw.c:3007-3028 | as many rows as fit are drawn, one after the other, the first on top as long as the table fits |
| `KeyTable.FirstRowIs` | src/draw.c:3007-3011 | the cursor's row is in the middle as far as the table goes |
| `KeyTable.RowReads` | src/draw.c:2968-2995 | a row reads name, `P`, `A` or `D`, `F` and description at their columns, bold if switched on, underlined if a heading |
| `KeyTable.MarkedRows` | src/draw.c:2986-2992 | while nothing is selected each row is that of its field, the sort marker at the sort key and the highlight at the cursor |
| `UiModel.StepKeepsInv` | src/input.c:459-493 | every key keeps the cursor in the table, the selection on a field that can be drawn and only on the field screen, the sort key in the table, the request word equal to the enabled fields' bits outside the field screen, and every filter one that its dialog makes |
| `UiModel.InitialInv` | src/main.c:9-20 | the state at start satisfies the invariant |
| `UiModel.TimeoutDoesNothing` | src/input.c:459-476 | a wait that ends without a key changes nothing |
| `UiModel.ReachableStates` | src/input.c:459-493 | the same, and no field lost, duplicated or changed in what is not the user's to set, in every state that any key sequence leads to |
| `KeyTable.MainKeys` | src/input.c:6-105 | `4` and `6` choose the family, `t` and `u` the protocol, `f` and `h` the screen, `q` and control-C stop, and nothing else changes |
| `KeyTable.ScrollKeys` | src/input.c:107-147 | down, up, left and right scroll by one, not before the beginning |
| `KeyTable.ScrollPages` | src/input.c:149-170 | the page keys scroll by half the lines below the first four |
| `KeyTable.DelayKey` | src/input.c:18-78 | `d` and a line with a number from 1 to 255 set the delay |
| `KeyTable.HelpKeys` | src/input.c:392-395 | `q` and escape leave the help screen |
| `KeyTable.ToggleKeys` | src/input.c:178-227 | a blank switches the field under the cursor on or off, `p` pins it or lets it go |
| `KeyTable.FilterOff` | src/input.c:193-212 | `f` switches a filter that is on off, and does nothing to a heading |
| `KeyTable.FilterOn` | src/input.c:193-212 | `f` and a line leave the filter of the line, switched on unless it was wrong |
| `KeyTable.CursorKeys` | src/input.c:274-298 | down and up move the cursor by one row in the table |
| `KeyTable.CursorPages` | src/input.c:362-390 | the page keys move it by half the rows on the screen |
| `KeyTable.MoveKeys` | src/input.c:345-360 | right selects the field under the cursor unless one is selected or it is a heading |
| `KeyTable.MoveMoves` | src/input.c:314-343 | left puts the selected field at the cursor and those between one row over |
| `KeyTable.SortKeys` | src/input.c:253-272 | `s` sorts by the field under the cursor, descending, then ascending, then not |
| `KeyTable.QuitKeys` | src/input.c:229-251 | leaving the field screen asks for exactly what the switched-on fields ask for |
| `KeyTable.Start` | src/main.c:9-20 | the state at start |
| `UiModel.RunConservesFields` | src/input.c:300-343 | over every key sequence the fields, but for what a user sets in them, are a permutation of the initial ones |
| `UiModel.StepKeepsSortField` | src/input.c:300-312 | only the sort key command changes which field the list is sorted by |
| `UiModel.ThreeSortPresses` | src/input.c:253-272 | three presses on an unsorted field: descending, ascending, unsorted again |
| `UiModel.PageKeysExactly` | src/input.c:362-390 | the page keys keep the cursor in the table if and only if the screen has 3 lines or the table one row |
| `UiModel.PageKeysExample` | src/input.c:362-375 | on 2 lines page down from the first row leads to row -1 |
| `UiModel.StepKeepsSortReady` | src/input.c:253-272 | a key keeps the sort key comparable if and only if it does not sort by a heading row |
| `UiModel.HeadingKeyExample` | src/input.c:253-272 | at start, with a heading in the first row, the keys `f`, `s`, `q` lead to the main screen with that heading as the sort key |
| `UiModel.DialogWithoutFilter` | src/draw.c:1335-1370 | a dialog succeeds without leaving a filter if and only if there was none and an operator was typed alone |
| `UiModel.StepKeepsFiltersReady` | src/input.c:193-212 | a key keeps every switched-on filter present if and only if it does not run such a dialog |
| `UiModel.BareOperatorExample` | src/draw.c:1335-1370 | `=` and an end of line, typed for a numeric field without a filter, is such an input |
| `UiModel.ReachableFiltersReadBack` | src/draw.c:1157-1386 | in every state that any key sequence leads to, every filter typed back as printed is rebuilt exactly under the conditions above, address filters with the same meaning |
| `Editor.Context.DrawHeader` | src/draw.c:2968-3048 | draws the previewed row: name, flags, sort marker and description, cut at the right edge |
| `Editor.Context.DrawFieldHeader` | src/draw.c:2997-3054 | the loop draws exactly the visible rows of the preview |
| `Editor.Context.SwapField` | src/input.c:300-312 | exchanges two rows, the sort key following its field and each filter staying with its owner |
| `Editor.SwapsMove` | src/input.c:331-340 | adjacent swaps from one row to another are one rotation, for the table and for the sort key |
| `Editor.Context.MoveField` | src/input.c:331-340 | the loop of adjacent swaps is one rotation, the sort key follows it and the filters keep their owners |
| `Editor.Context.FieldKeyLeft` | src/input.c:314-343 | commits the move without drawing, and the screen is up to date all the same |
| `Editor.Context.FieldKeyRight` | src/input.c:345-360 | selects the field under the cursor unless it is a heading |
| `Editor.Context.FieldSpace` | src/input.c:178-191 | toggles the field under the cursor unless it is a heading |
| `Editor.Context.FieldPin` | src/input.c:214-227 | toggles the pin of the field under the cursor |
| `Editor.Context.FieldFilter` | src/input.c:193-212 | switches the filter off, or runs the dialog and switches it on if that succeeds; a new filter replaces the old one, which is freed |
| `Editor.Context.FieldQuit` | src/input.c:229-251 | the request word becomes the union of the enabled fields' bits and the selection is dropped |
| `Editor.Context.FieldSort` | src/input.c:253-272 | cycles the sort key of the row under the cursor |
| `Editor.Context.FieldPageDown` | src/input.c:362-375 | moves down half a page, stopping at the last row |
| `Editor.Context.FieldPageUp` | src/input.c:377-390 | moves up half a page, stopping at the first row |
| `Editor.Context.MainHandler` | src/input.c:6-170 | every key of the main screen, the delay dialog included, takes the step of the model and no other part of the state changes |
| `Editor.Context.ShouldStop` | src/input.c:459-493 | reads one key and takes the step of the screen shown; the field screen is never out of date |
| `Editor.Context.ClampScroll` | src/draw.c:260-267 | the vertical offset ends within the list |
| `FilterMemory.FilterStore.Replace` | src/draw.c:1338-1363 | a field gets the new filter and its text, and those it had are freed once |
| `FilterMemory.FilterStore.Swap` | src/input.c:300-312 | exchanging two fields exchanges what they own |
| `FilterMemory.FilterStore.WindowExit` | src/draw.c:88-113 | closing the screen frees every filter and every text once, and nothing when it is called again |
| `Layout.ShownCounts` | src/draw.c:184-240 | exactly min(offset, n) of the n visible unpinned fields are skipped, and no pinned one is |
| `ShownFrames.ColumnsExactly` | src/draw.c:184-240 | the columns are the fields that are switched on, can be drawn and are carried by some connection, without the first unpinned ones up to the offset |
| `ShownFrames.ShownAreInFrame` | src/draw.c:193-200 | no other field gets a column |
| `ShownFrames.InFrameIsShown` | src/draw.c:193-218 | every such field has one when it is pinned or nothing is scrolled away |
| `ShownFrames.MissingColumns` | src/draw.c:184-218 | of the unpinned ones exactly min(offset, n) are missing |
| `ShownFrames.WidthOf` | src/draw.c:223-229 | an address column is as wide as addresses of the family, any other as wide as it says |
| `ShownFrames.CellReads` | src/draw.c:231-234 | a column has its name in the header, and in a row what the connection has there, or blanks |
| `Layout.HeaderAligned` | src/draw.c:273-309 | for every table and offset, the header's columns and every row's columns start at the same places |
| `Layout.SamePlaces` | src/draw.c:186-309 | header and rows write the same fields at the same columns |
| `Layout.ColumnsApart` | src/draw.c:215-240 | a column starts behind the width of every earlier column and a separator |
| `Layout.StartsBeyond` | src/draw.c:273-309 | the columns the header leaves out start beyond the right edge |
| `Layout.PaintedBeyond` | src/draw.c:273-309 | stopping at the right edge, as the header does, paints the same row as going on |
| `Layout.RowReads` | src/draw.c:186-240 | when no text is longer than its column, a row reads each text at the place of its column, as far as the right edge, and is blank everywhere else |
| `Layout.OverlayAt` | src/draw.c:153-171 | writing a text at a column, clipped to the width, changes those characters and no others |
| `Layout.OverlayBlank` | src/draw.c:316-325 | a blank text as wide as the row wipes out whatever was drawn |
| `Frame.Window.Print` | src/draw.c:153-171 | a write changes its own row only, clipped |
| `Frame.FilterRejects` | src/draw.c:203-213 | rejects exactly the connections a switched-on filter does not let through, those without the attribute included |
| `Frame.DrawProtocol` | src/draw.c:173-243 | asks for a rewind exactly for a connection that some active filter rejects, and otherwise draws the whole row, each field at its column |
| `Frame.DrawHeader` | src/draw.c:273-309 | draws the header row; the fields and columns it wrote are a prefix of those of every row, the others being beyond the edge |
| `Frame.HeaderBegins` | src/draw.c:184-309 | wherever the header's loop stops, what it wrote where is a prefix of what any row writes where, and the rest of the row is beyond the right edge |
| `Frame.DrawConnection` | src/draw.c:313-325 | a rejected row leaves no trace |
| `Frame.DrawRows` | src/draw.c:313-330 | rows 1..k show exactly the accepted connections behind the vertical offset, in list order, the rest is blank, and the list is drained |
| `Frame.DrawFrame` | src/draw.c:269-330 | the same for the whole frame with its header, on a window one row higher than the list, so no write falls outside |
| `ShownFrames.PictureReads` | src/draw.c:260-330 | row 0 has the shown names, then come from the vertical offset on the connections that every switched-on filter of a field in the frame lets through, in list order, and the rest is blank |
| `ShownFrames.SwitchedOffIsInvisible` | src/draw.c:193-194 | whatever is changed in fields that are switched off, filters included, the picture stays the same |
| `ShownFrames.OffsetIsClamped` | src/draw.c:260-267 | the vertical offset stays while it is in the list and goes to the last entry otherwise |
| `Netlink.EncodeThenRead` | src/nl.c:223-252 | every concatenation of attributes, each with padding of its own, is read back as those attributes |
| `Netlink.EncodeExample` | src/nl.c:242-251 | an attribute of type 2 with two bytes, byte by byte |
| `Netlink.WalkAttrs` | src/nl.c:223-252 | the walk terminates, copies each attribute once in order, records exactly the types seen, and fails exactly for an unsupported one |
| `Dump.DiagDump` | src/nl.c:187-266 | a record is inserted with its base groups, the types seen and the owner if one is known, or freed again if an attribute is unsupported |
| `Records.MessageAddsRecord` | src/nl.c:223-258 | a message with supported attributes adds a record that carries groups 0 and 23, exactly the types sent, and group 24 with pid and command if owners are asked for and the inode is known; any other ends the dump |
| `Dump.ReadMsg` | src/nl.c:311-345 | a message ends the dump, fails it, or adds its record |
| `Dump.ReadDatagram` | src/nl.c:311-345 | handles the messages of a datagram until one ends or fails the dump |
| `Dump.ConnectionsDump` | src/nl.c:268-351 | the list holds the sorted arrivals, also after a failed dump, and if they are of one family it is their stable sort; success exactly when the kernel said it was done |
| `Records.DumpHasRecords` | src/nl.c:311-345 | a dump has the records of all that was sent, in order, up to the message that ends it, and succeeds only if that says done |
| `Records.DumpRecordsGroups` | src/nl.c:254-258 | after it exactly the groups of these records are recorded |
| `Dump.ArrivalsAreSorted` | src/draw.c:3083-3123 | for every dump of one family, inserting what arrives gives its stable sort |
| `Dump.KeyFitsExactly` | src/draw.c:3107-3112 | a missing comparator is called for exactly when two arrivals carry the group of a heading that is the sort key |
| `Dump.FirstEntryIsCompared` | src/draw.c:3103-3112 | the walk compares its first entry exactly when some listed connection carries the group |
| `Dump.ExtOfMembers` | src/nl.c:254-258 | a group is recorded after a dump exactly when it is a base group or some listed connection carries it |
| `Dump.FirstPairWins` | src/proc.c:141-177 | over any sequence of recorded pairs, an inode is known exactly when it is not 0 and occurs, with its first owner |
| `Records.FirstProcessOwns` | src/proc.c:225-291 | a socket belongs to the first process that has it open |
| `Records.NobodyOwns` | src/proc.c:74-99 | inode 0, and one that no process has open, belongs to nobody |
| `Dump.AddSockets` | src/proc.c:179-223 | records the sockets of one process in order |
| `Dump.BuildMap` | src/proc.c:225-291 | does nothing unless owners are asked for; otherwise the map has the sockets of all processes up to the first whose command cannot be read |
| `Monitor.Collect` | src/main.c:55-58 | fails exactly if a process cannot be read, the request cannot be sent or the dump does not come to its end; otherwise the list holds the sorted answer, with owners from the table just built |
| `Monitor.DrawConnections` | src/draw.c:269-334 | after drawing nothing is listed and no owner is stored |
| `Monitor.Refresh` | src/main.c:51-62 | fails exactly on that condition and then leaves the state alone; otherwise the frame is the header and, from the clamped vertical offset on, the list without what a filter rejects, and for a one-family answer that list is its stable sort |
| `ShownFrames.ListIsSorted` | src/main.c:55-58 | the list of a refresh is sorted by the field and in the direction that the user chose |
| `ShownFrames.RefreshFailsExactly` | src/main.c:55-58 | a refresh fails exactly if owners are asked for and a process cannot be read, the request is not sent, or the dump does not end as it should |
| `ShownFrames.AnswerIsTheDump` | src/main.c:55-58 | the owners a refresh sees are those of its processes if they are asked for, and none otherwise |
| `Monitor.PictureOfTheStableSort` | src/draw.c:269-330 | for a one-family answer the frame is the picture of any stable sort of it |
| `Monitor.ReadyNeverCallsNull` | src/draw.c:206-207 | no refresh follows a null pointer unless a heading is the sort key or a filter is switched on that does not exist |
| `Monitor.Iterate` | src/main.c:51-63 | one turn is the refresh of the main screen, then the step of the key; it says when and why the loop ends, and unless it ends nothing is listed and no owner stored |
| `Monitor.CleanUp` | src/main.c:65-73 | frees every entry, owner, the bucket array and, unless the screen is closed already, every filter that is left |
| `Monitor.Run` | src/main.c:33-74 | over every run the final state, the keys and answers taken, every frame shown and the reason to end are those of `Loop`; when the run leaves the loop, by a key or a failed refresh, all entries, owners, bucket arrays and filters have been freed once |
| `Monitor.LoopConservesFields` | src/main.c:51-63 | over every run of the main loop the fields, but for what a user sets, are a permutation of the initial ones |
| `Monitor.LoopEndings` | src/main.c:51-63 | what each reason to end means: a key asked to stop, answers or keys are used up, the last answer taken makes the refresh fail for the reason given, a null pointer is followed, or a dialog writes behind its buffer |
| `Monitor.SafeRun` | src/main.c:51-63 | a run in which no key sorts by a heading and none ends a dialog with an operator alone never follows a null pointer |
| `CrashRuns.HeadingRun` | src/input.c:253-272 | from the start, with a heading of a base group in the first row, the keys `f`, `s`, `q` and two connections lead to a null pointer |
| `CrashRuns.BareOperatorRun` | src/draw.c:1335-1370 | from the start, an operator alone, typed for a shown field in the second row, and one listed connection lead to a null pointer |
| `FilteredFrames.TypedFilterNarrows` | src/draw.c:186-213 | after a filter is typed for an enabled field that some connection carries, a frame lists exactly those of the connections it would have listed that carry the field and match |
| `FilteredFrames.FilteredPicture` | src/draw.c:260-330 | the same for the rows of the picture |
| `FilteredFrames.TypedComparison` | src/draw.c:186-213 | typing a line that accepts certain numbers makes a frame list exactly those of the connections it would have listed whose number is one of them |
| `FilteredFrames.FrameAbove` | src/draw.c:186-213 | for instance `>` and a number: those with a greater number |

## Left out

- Curses colours, windows, resizing and what the delay dialog prints: a screen has fixed lines and columns for a run, and a frame is text on a buffer that starts blank. The text behind a failed dump and the 4096-byte limit of one print are not modelled.
- The summary line and the help screen's text: they only print counters and constants.
- The rows of `tcp_fields`: a field is a record, the table is arbitrary. What the one-line `dr_*`, `copy_*`, bit-field `sort_*` and the one-line `fa_*` functions read becomes the field's `read` and `render` (for the option flags, a number with the set of its bits); widths are kept, contents may be longer than their width, as `printf` has it.
- Sockets, reading `/proc`, `inet_pton`, `inet_ntop`: parameters, as said above. `strtol` on the hexadecimal digits, colons and dots a dialog lets through is modelled by `PrefixLength`.
- Malformed netlink messages and the 8-bit `idiag_ext` of the request. An answer that just stops counts as a failed receive.
- Bit words (`ext`, `ext_req`, `ext_rcv`) are sets of numbers. The bit that `build_sk_proc_map` sets in `ext_rcv` is overwritten by the dump that follows (`src/nl.c:311-345`), so it is not modelled.
- Owners.Hash: at shift 0 it is the one bucket that is meant, because C leaves a shift of 32 undefined.
- FilterDialog.FpCommon: does not say what an operand that fills the 80-byte buffer leads to, for there the source writes behind it. The same holds for FpAddr.
- FilterDialog.FpAddr: reads its operator with the method of the other dialog, so after `>` or `<` one more character may be looked at than in the source; the line is rejected and skipped either way.
- FilterText.AddressRoundTrip: rebuilds a filter with the same meaning and not the same mask, because the source prints the prefix only up to the address length.
- Comparators.FieldCompareIsTotalPreorder: is about values of one family, as in one dump; the exact condition for two families is `Comparators.MixedFamilies`.
- Editor.Context.ShouldStop: does not model the resize key, which changes lines and columns between keys (`src/input.c:478-479`); they are fixed for a run.
- Monitor.Run: does not model the memory of the windows, of directory handles and of the socket, which are opened before the loop and closed behind it.
