# A verified model of the XML library and of the control loops of a house controller

The house controller and its driver read and write their configuration with one XML library,
`driver/src/xmlParser.cpp`.  This project models that library in its default build: the tokenizer, the recursive-descent
parser with its recovery from missing end tags, the printer that measures before it writes, the escape codec, the order
index of a node, the lookup of children by name, and the base64 codec.  Beside it stand four state machines and codecs
of the controller: the thermostat (`hp_heating_section.cpp`, `hp2heating.cpp`), the Modbus checksum and number decoding
(`hp2modbus.cpp`), the button gestures (`hp2go.cpp`), and the alarm (`hp2go.cpp`, `hp_security.cpp`,
`hp_security_zone.cpp`).

`dafny verify dfyconfig.toml` checks all of it.

## How it is built

Every routine that changes things step by step is a method with the loops of the original, on objects with the fields of
the original.  Its contract ties the new state to a function of the old one, and what the original promises is proved
about these functions.

| files | what they hold |
|---|---|
| `Wrappers`, `CStrings`, `Utf8`, `Escape`, `References`, `Lexer` | byte strings and the tables of character lengths, texts in UTF-8, the escape codec, what entities and numbers stand for, the tokenizer |
| `Order`, `Nodes` | the index array of a node as a refinement of a list, and the class `XMLNode` that keeps it |
| `Grammar`, `Parser` | what the parser computes, and the parser as it runs |
| `Printer` | what the printer writes, and its two passes |
| `Documents`, `Lexemes`, `Tags`, `Contents`, `Reading` | documents as they may be written, and the proof that the parser reads them back |
| `Elision`, `Misreadings`, `RoundTrips` | comments between texts, trees that are taken for others, and the round trip as an equivalence |
| `Base64` | the base64 codec and its buffers |
| `Words`, `Crc`, `Float` | the checksum against its bitwise definition, and numbers over the reals |
| `Heating`, `HeatingSections`, `HeatingControl` | zones, sections, and the heating as a whole |
| `Gestures` | the trackers of pressed buttons |
| `Security` | zones, countdowns and alarms |

## What turned out otherwise than promised

Each of these is proved; the member that states it is given.

- Printing a tree and parsing the text gives the tree back exactly when no comment stands between two texts, no element
  named `PRE` without attributes holds anything, every declaration has an attribute, and no declaration below the second
  level holds anything (`RoundTrips.ParseUndoesPrint`).  Trees that fail are `RoundTrips.PreDoesNotReturn`,
  `RoundTrips.BareDoesNotReturn`, `RoundTrips.NestedDoesNotReturn` and `RoundTrips.NoteDoesNotReturn`.
- A list of items at the top comes back under the same conditions exactly when, besides, no declaration stands before
  the last of them, since it takes in what comes behind it (`RoundTrips.HeadRoundTrip`); a declaration in front of an
  element does not (`RoundTrips.HeadDoesNotReturn`).
- `addToOrder` with a position keeps the index valid exactly before an item of the kind of the new one, or before the
  very last item, where the new item silently goes to the end (`Order.AddExactly`, `Order.IndexBreaks`).
- `removeOrderElement` and `detachFromParent` return the new number of items, not a position
  (`Nodes.XMLNode.DetachFromParent`).
- `encodeLength` is exact for every input but the empty one, and only the empty input does not survive encoding and
  decoding (`Base64.LengthExactly`, `Base64.DecodeUndoesEncode`).
- `ConvertNumberToFloat` is right exactly on the normal numbers, whose exponent field is neither 0 nor all ones
  (`Float.ExactlyNormal`); an infinity becomes a finite number (`Float.InfinityIsFinite`).
- A press of a button with a rule for double presses fires nothing at all exactly when it is released after the time
  for a second press is over and before a rule has fired (`Gestures.SilentExactly`); such presses are
  `Gestures.HeldInVain`.
- Erasing inside a loop that goes on counting makes a pass miss a tracker, exactly when the run of trackers directly in
  front of it that end in that tick is odd (`Gestures.ReachedExactly`, `Gestures.SecondMissed`); over any run the count
  of a tracker lags behind by no more than the number of trackers in front of it (`Gestures.CountLags`).
- While no countdown ends, a countdown keeps time exactly when its zone stands in the running list once
  (`Security.KeepsTimeExactly`); two requests to arm a zone make it stand there twice and take two seconds off its
  countdown in one (`Security.ArmedTwice`).  Behind a countdown that ends, the next one misses a second
  (`Security.TurnMissed`); over any run a countdown loses no more seconds that way than there are entries in front of
  it (`Security.CountdownLags`).
- The first motion in an armed zone is to be ignored, but one motion is enough if its sensor is listed twice
  (`Security.SensedExactly`).

## Model

| member | source | states |
|---|---|---|
| CStrings.CharLen | driver/src/xmlParser.cpp:447-536 | the five byte tables: only the terminator has length 0, every ASCII byte has length 1, no character is longer than 4 bytes |
| Utf8.WrittenSafe | driver/src/xmlParser.cpp:447-536 | every text in UTF-8 is one that the library reads without leaving it, and a walk by the byte table goes from character to character |
| Lexer.ClearTags | driver/src/xmlParser.cpp:88-96 | the four kinds of clear tags begin and end as the standard has them, and the library its own |
| Lexer.NextToken | driver/src/xmlParser.cpp:904-1069 | termination: every token but the error token moves the position strictly forward, none moves it behind the terminator, and a token lies between the two positions |
| Lexer.Xml.GetNextChar | driver/src/xmlParser.cpp:891-902 | the character at the position and the step over all its bytes; at the terminator the position stays |
| Lexer.Xml.GetNextToken | driver/src/xmlParser.cpp:904-1069 | the loops of the tokenizer read exactly the next token, with its length, the closing quote or the fall-back to a text, and the swallowed white space |
| Escape.LengthXMLString | driver/src/xmlParser.cpp:714-736 | the measuring pass gives the exact length of the escaped string |
| Escape.ToXMLUnSafe | driver/src/xmlParser.cpp:682-712 | the writing pass puts exactly the escaped string and a terminator into the buffer and leaves what stands before alone |
| Escape.EntityUnique | driver/src/xmlParser.cpp:103-111 | at most one entity fits at a position, so both passes of the decoder find the same one |
| Escape.CountPredictsFill | driver/src/xmlParser.cpp:754-868 | on every input that both passes accept, the counting pass predicts exactly how many bytes the writing pass writes |
| Escape.FromXMLString | driver/src/xmlParser.cpp:754-868 | both loops of the decoder with their errors compute the decoded text, in a buffer of the counted size |
| Escape.RoundTrip | driver/src/xmlParser.cpp:682-868 | decoding undoes escaping for every string, whatever follows the escaped text |
| References.UnitsDecode | driver/src/xmlParser.cpp:754-868 | any text of characters, predefined entities in any case and character references is decoded to the bytes they stand for, wherever it stands; the first reference above 255, or with a character that is no digit, is the error |
| References.ReferenceDecodes | driver/src/xmlParser.cpp:814-842 | `&#`, or `&#x` or `&#X`, with the digits of a number in that base, in either case and with any zeros in front, gives the byte of that number, or an error above 255 |
| Order.EntryUnique | driver/src/xmlParser.cpp:1122-1128 | each item has exactly one entry in the index array |
| Order.RemoveRenumbers | driver/src/xmlParser.cpp:1130-1140 | taking an entry out and renumbering the later ones of its kind gives the index array of the list without the item |
| Order.AddAppends | driver/src/xmlParser.cpp:1143-1156 | without a position, or with one behind the end, the index becomes that of the list with the item appended |
| Order.AddInserts | driver/src/xmlParser.cpp:1156-1167 | before an item of the same kind the index becomes that of the list with the item inserted there |
| Order.AddBeforeLast | driver/src/xmlParser.cpp:1156-1167 | before a last item of another kind the item is appended |
| Order.AddExactly | driver/src/xmlParser.cpp:1156-1167 | the index stays valid if and only if the item at the position has the kind of the new one or is the last, and the position is met if and only if it has that kind |
| Order.IndexBreaks | driver/src/xmlParser.cpp:1156-1167 | a text put before a child that a text follows leaves no valid index |
| Nodes.XMLNode.FindPosition | driver/src/xmlParser.cpp:1122-1128 | the search without a bound ends at the one item of that kind and number |
| Nodes.XMLNode.RemoveOrderElement | driver/src/xmlParser.cpp:1130-1140 | the in-place shift and renumbering give the index of the shorter list, and the result is the new total |
| Nodes.XMLNode.AddToOrder | driver/src/xmlParser.cpp:1143-1167 | the in-place shift, search and renumbering give the index and the number that the specification says, for every position |
| Nodes.AddPuts | driver/src/xmlParser.cpp:1143-1167 | the index after adding is that of the list with the item put in its place exactly where that is possible, and no valid index otherwise |
| Nodes.PutArrays | driver/src/xmlParser.cpp:1170-1220 | putting an item into the list is inserting it into the array of its kind at its number and leaving the two other arrays alone |
| Nodes.RemoveArrays | driver/src/xmlParser.cpp:2154-2163 | removing an item from the list is removing it from the array of its kind and leaving the two other arrays alone |
| Nodes.XMLNode.AddChild | driver/src/xmlParser.cpp:1170-1179 | a child goes to its place in the list of items, and array and index follow; otherwise the index is broken |
| Nodes.XMLNode.AddText | driver/src/xmlParser.cpp:1195-1204 | the same for a text |
| Nodes.XMLNode.AddClear | driver/src/xmlParser.cpp:1206-1220 | the same for a clear tag |
| Nodes.XMLNode.DetachFromParent | driver/src/xmlParser.cpp:2154-2163 | the search without a bound ends at the node; exactly that child leaves the list, everything else stays in its order, and the result is the new total |
| Nodes.XMLNode.DeleteText | driver/src/xmlParser.cpp:2371-2379 | exactly that text leaves the list; a number out of range changes nothing |
| Nodes.XMLNode.DeleteClear | driver/src/xmlParser.cpp:2400-2408 | exactly that clear tag leaves the list; a number out of range changes nothing |
| Nodes.XMLNode.EnumContents | driver/src/xmlParser.cpp:2619-2640 | the attributes first, then the items in the order of the text |
| Nodes.XMLNode.NChildNode | driver/src/xmlParser.cpp:2446-2457 | the number of children of that name, regardless of case |
| Nodes.XMLNode.NextChild | driver/src/xmlParser.cpp:2459-2475 | the next child of that name, and the number behind it |
| Nodes.XMLNode.GetChildNode | driver/src/xmlParser.cpp:2477-2490 | child `j` among the children of that name, nothing exactly when there are not that many, the last one for a negative `j` |
| Parser.ParseClearTag | driver/src/xmlParser.cpp:1223-1258 | the end of a clear tag is found, for `<!DOCTYPE` either `>` or `]>`, and the text up to it is added unless it is empty; without an end the error is set |
| Parser.AddDecoded | driver/src/xmlParser.cpp:1288-1311 | a text is appended, or, behind a comment behind a text, the comment is deleted and the texts become one |
| Parser.MaybeAddTxT | driver/src/xmlParser.cpp:1275-1312 | the pending run is trimmed at both ends, decoded and added; a decoding error is passed on |
| Parser.ParseXMLElement | driver/src/xmlParser.cpp:1315-1723 | the loop and its recursion compute the specified tree, state and error on every text, keep the node valid, never move backwards, and end |
| Parser.ParseString | driver/src/xmlParser.cpp:1749-1810 | the result and the error of the whole call, with or without a tag to look for, on every text |
| Contents.TagMatchesAny | driver/src/xmlParser.cpp:873-888 | on plain names the comparison of tags is equality of names regardless of case, whichever of the five signs ends the tag |
| Contents.DocTypeExactly | driver/src/xmlParser.cpp:1223-1258 | a `<!DOCTYPE` ends at a `>`, unless a `<` comes before it; then it ends at the first `]>` |
| Contents.ClearEndShift | driver/src/xmlParser.cpp:1223-1258 | a clear tag ends where it was meant to, wherever in the text it stands |
| Contents.RawReads | driver/src/xmlParser.cpp:1524-1530 | a written clear tag is read back, and pending text before it is added first |
| Contents.EmptyClearReads | driver/src/xmlParser.cpp:1206-1258 | a clear tag of any kind without a text ends the text before it and leaves no trace |
| Contents.RunReads | driver/src/xmlParser.cpp:1357-1366 | an escaped text, however the tokenizer cuts it up, is passed over as one pending run |
| Tags.TagReads | driver/src/xmlParser.cpp:1532-1705 | a written start tag gives all its attributes with their values, and opens or closes the element as written |
| Tags.AttributeReads | driver/src/xmlParser.cpp:1532-1690 | an attribute in any spelling, with white space around its name and `=`, quotes of either kind and references in its value, is read with its decoded value |
| Tags.UnquotedReads | driver/src/xmlParser.cpp:1660-1690 | the same for a value without quotes, up to white space, markup or `/>`; a declaration gives up the `?` at its end |
| Reading.ContentReads | driver/src/xmlParser.cpp:1342-1530 | from any part of a written element on, the parser gets the rest of its parts and passes a foreign end tag on to its owner |
| Reading.ClosedReads | driver/src/xmlParser.cpp:1403-1444 | a child with its own end is read as the element it stands for, and the parser goes on behind it |
| Reading.OpenReads | driver/src/xmlParser.cpp:1424-1444 | a child without an end tag ends where its parent does |
| Reading.DocumentReads | driver/src/xmlParser.cpp:1315-1723 | every written document, with any white space between its parts, is read as the tree it stands for; an error is set exactly when an end tag was left out |
| Reading.ParseUndoesWrite | driver/src/xmlParser.cpp:1749-1810 | the same through `parseString`, with or without the name of the element |
| Reading.MissingEndTags | driver/src/xmlParser.cpp:12-16 | a document with end tags left out gives the same tree as the document with all of them, and only the error tells them apart |
| Reading.ParseFinds | driver/src/xmlParser.cpp:1766-1790 | a document asked for another name than that of its top element gives the first of the parts of that element that is an element of that name, and the error for none exactly when there is none |
| Reading.HeadFinds | driver/src/xmlParser.cpp:1766-1790 | the same among several items at the top |
| Reading.HeadOnly | driver/src/xmlParser.cpp:1764-1790 | without any element the head comes back with the error that there is no tag, or nothing when a name is asked for |
| Reading.FoundNamed | driver/src/xmlParser.cpp:1770-1790 | on every text, what comes back for a name has that name regardless of case |
| Reading.UnmatchedEnd | driver/src/xmlParser.cpp:1424-1436 | behind elements left open an end tag that none of them claims gives nothing but its error, whatever follows |
| Reading.WrongReported | driver/src/xmlParser.cpp:1342-1530 | behind any parts of a document and at any depth, a clear tag without an end, a tag or an end tag without a name, or a text that cannot be decoded gives nothing but its own error, whatever follows |
| Reading.UnclosedBroken | driver/src/xmlParser.cpp:1223-1265 | each kind of clear tag without its end is such a thing |
| Reading.NamelessBroken | driver/src/xmlParser.cpp:1376-1390 | and so are `<>` and `</>` |
| Reading.UnexpectedEquals | driver/src/xmlParser.cpp:1573-1584 | a `=` where a name should be gives nothing but its error |
| Elision.ParserSettles | driver/src/xmlParser.cpp:1288-1311 | whatever the text, in no node that the parser builds does a comment stand between two texts |
| Elision.MergeExactly | driver/src/xmlParser.cpp:1288-1311 | eliding comments leaves a tree alone if and only if it holds no comment between two texts |
| Elision.MergeSettles | driver/src/xmlParser.cpp:1288-1311 | what elision makes of any tree holds no such comment |
| Misreadings.ContentKeeps | driver/src/xmlParser.cpp:1342-1530 | whatever text follows, every item that has been read stays where it is, except that a comment behind a text may go and a text may go on |
| Misreadings.PreMissing | driver/src/xmlParser.cpp:88-96 | `<PRE>` without attributes is read as a clear tag, so the element that was meant is not in its place |
| Misreadings.BareMissing | driver/src/xmlParser.cpp:1368-1407 | the `?` at the end of a declaration without attributes goes to its name, so the declaration that was meant is not in its place |
| Misreadings.PartsBeyond | driver/src/xmlParser.cpp:1604-1634 | a declaration at the top is read with parts that go beyond its own, whatever kinds of parts stand behind it and however they are misread |
| Misreadings.PartsMisread | driver/src/xmlParser.cpp:1342-1530 | one element of these kinds anywhere below, or a declaration at the top before the last part, and the items that are read differ from those that were meant |
| Misreadings.DocumentMisread | driver/src/xmlParser.cpp:1749-1810 | such a document never gives its element back |
| Printer.CreateXMLStringR | driver/src/xmlParser.cpp:1883-2121 | without a marker the length formulas of the measuring pass, those of its own and those shared with the writing pass, give exactly the length of what is written with one, and that is the rendered tree at every position |
| Printer.CreateXMLString | driver/src/xmlParser.cpp:2134-2152 | the buffer of the measured size holds exactly the rendered tree |
| RoundTrips.ElemSame | driver/src/xmlParser.cpp:1883-2121 | the rendered tree, compact or indented, is a document with only white space between its parts |
| RoundTrips.PrintedSafe | driver/src/xmlParser.cpp:1883-2152 | every tree in question can be printed, and what is printed can be parsed without reading behind the terminator |
| RoundTrips.ParseUndoesPrint | driver/src/xmlParser.cpp:1749-2152 | parsing what was printed, compact or indented, gives the tree back if and only if it is sound and holds no comment between two texts |
| RoundTrips.PrintFinds | driver/src/xmlParser.cpp:1749-2152 | a sound printed tree asked for another name than its own gives the first of its children of that name, or none |
| RoundTrips.LayoutIndented | driver/src/xmlParser.cpp:1883-2121 | the printed text has each item on a line of its own, one tab deeper than its element, and the end tag as deep as the start tag, but for a single text; the compact text has no white space between the parts |
| RoundTrips.HeadRoundTrip | driver/src/xmlParser.cpp:1749-2152 | a whole list of items at the top comes back if and only if it is sound, holds no comment between two texts and has no declaration before its last item |
| RoundTrips.PreDoesNotReturn | driver/src/xmlParser.cpp:88-96 | an element `PRE` with a text, printed in any format, does not come back |
| RoundTrips.BareDoesNotReturn | driver/src/xmlParser.cpp:1604-1634 | a declaration without attributes does not come back |
| RoundTrips.NestedDoesNotReturn | driver/src/xmlParser.cpp:1612-1630 | a declaration inside an element that holds a text does not come back |
| RoundTrips.HeadDoesNotReturn | driver/src/xmlParser.cpp:1612-1630 | a head with a declaration in front of an element does not come back |
| RoundTrips.NoteDoesNotReturn | driver/src/xmlParser.cpp:1288-1311 | an element with a comment between two texts comes back with one text |
| Base64.Alphabet | driver/src/xmlParser.cpp:2777-2777 | the encoder uses the alphabet of section 4 of RFC 4648 |
| Base64.TablesFollow | driver/src/xmlParser.cpp:2781-2795 | the decoder knows exactly these characters by their values, and the fill character, white space and the terminator apart from everything else |
| Base64.LengthExactly | driver/src/xmlParser.cpp:2797-2802 | the length is exact if and only if there is input, and wrapped output has one line end for every 18 complete groups |
| Base64.EncodeBuffer | driver/src/xmlParser.cpp:2804-2837 | the loop fills the buffer of that length with the encoding of section 4 of RFC 4648 and a terminator |
| Base64.ComputeSize | driver/src/xmlParser.cpp:2839-2860 | the computed size, and which of the two errors is reported on which data |
| Base64.SizeExactly | driver/src/xmlParser.cpp:2839-2860 | an illegal character anywhere, or a number of characters that is no multiple of 4, is reported; the size is three bytes for four characters, less one for each fill character at the very end |
| Base64.DecodeInto | driver/src/xmlParser.cpp:2862-2921 | the decoding loop with its three results, for every data and every room |
| Base64.DecodeBuffer | driver/src/xmlParser.cpp:2929-2939 | the same with a buffer of its own; no buffer where the size is 0, and then the error is that of the size |
| Base64.DecodeExactly | driver/src/xmlParser.cpp:2862-2921 | on all data and for every room: which bytes are written, and which result and error is reported, by the six-bit values, what stops them and how many there are |
| Base64.DecodeUndoesEncode | driver/src/xmlParser.cpp:2804-2921 | decoding undoes encoding for every input, wrapped or not, with the size computed exactly |
| Crc.Tables | hp_go/src/hp2modbus.cpp:434-473 | all 256 entries of both tables are eight bitwise steps with the polynomial 0xA001 |
| Crc.TableStep | hp_go/src/hp2modbus.cpp:476-481 | one turn of the loop is one step of the bitwise definition |
| Crc.CRC16 | hp_go/src/hp2modbus.cpp:432-483 | for every message the routine gives the CRC of section 6.2.2 of the MODBUS over Serial Line guide, its bytes swapped |
| Crc.CheckValue | hp_go/src/hp2modbus.cpp:432-483 | the frame 02 07 has the checksum 41 12, as in the example of the guide |
| Crc.BurstDetected | hp_go/src/hp2modbus.cpp:432-483 | strings of bits that differ only inside sixteen adjacent bits have different checksums, whatever their length |
| Crc.AdjacentBytesDetected | hp_go/src/hp2modbus.cpp:432-483 | messages of any length that differ only inside two adjacent bytes never have the same checksum |
| Crc.AppendChecksum | hp_go/src/hp2modbus.cpp:327-331 | the two bytes behind the message are its checksum, in the order in which it is sent |
| Crc.FrameChecks | hp_go/src/hp2modbus.cpp:327-331 | the checksum over a message and two more bytes is 0 if and only if these are the two that are appended |
| Float.ConvertNumberToFloat | hp_go/src/hp2modbus.cpp:220-240 | the bit loop computes sign, power and fraction of the pattern as a real, in both precisions |
| Float.ExactlyNormal | hp_go/src/hp2modbus.cpp:220-240 | on all patterns, the value is that of section 3.4 of IEEE 754-2008 if and only if the exponent field is neither 0 nor all ones |
| Float.InfinityIsFinite | hp_go/src/hp2modbus.cpp:220-240 | the pattern of an infinity, which has no value, becomes 2 to the power 128 |
| Float.StrictlyIncreasing | hp_go/src/hp2modbus.cpp:220-240 | on patterns without a sign the value grows strictly with the pattern |
| Float.SignExtension | hp_go/src/hp2modbus.cpp:251-261 | the sign extension of the register value on its way into the routine does not change the number |
| Float.ReadRegisters | hp_go/src/hp2modbus.cpp:251-255 | one or two registers are put together with the upper byte first, as a signed number |
| Float.ProcessResponse | hp_go/src/hp2modbus.cpp:242-280 | which value a response stands for, by function code, register size and type of the slave, and which responses are errors |
| Float.RegistersDecode | hp_go/src/hp2modbus.cpp:251-261 | a float that a slave sent in two registers is the float that is taken over, if and only if it is a normal one; so zeros, subnormal numbers, infinities and NaNs are not |
| Heating.CommandsTellStates | hp_go/src/hp_heating_section.cpp:144-302 | what is told to an actor is the new state of its zone, and every actor is told when that changes |
| Heating.SwitchingBound | hp_go/src/hp_heating_section.cpp:246-277 | a heater that was switched on `k` times has cost a total variation of at least `k - 1` thresholds, and of `2k - 3` from the second time on |
| Heating.BoundSharp | hp_go/src/hp_heating_section.cpp:246-277 | for every `k` there are readings that switch it `k` times for no more than that, up to any small amount |
| Heating.DeadBand | hp_go/src/hp_heating_section.cpp:246-277 | a reading leaves every settled heater alone if and only if it lies below the target by no more than the threshold |
| Heating.NeverSwitches | hp_go/src/hp_heating_section.cpp:246-277 | readings in that band never change a heater after the first processed step |
| Heating.CoolingBound | hp_go/src/hp_heating_section.cpp:191-235 | the switching bound for coolers; cooling is heating upside down |
| Heating.LastReadingDecides | hp_go/src/hp_heating_section.cpp:144-302 | in every mode and over any readings the last one decides: off means off, in economic mode the heater is on exactly below the economic temperature, heating and cooling are on beyond target and threshold and off at the target, and unchanged in between |
| HeatingSections.HeatingSection.SetTemp4Section | hp_go/src/hp_heating_section.cpp:32-42 | a reading reaches the reference and exactly the zones of its sensor |
| HeatingSections.HeatingSection.HasSensor | hp_go/src/hp_heating_section.cpp:43-54 | the reference sensor wins over the sensor of a zone |
| HeatingSections.HeatingSection.ProcessSection | hp_go/src/hp_heating_section.cpp:144-327 | the loop steps exactly the zones concerned, gathers the commands in order, and sums up the two flags |
| HeatingSections.HeatingSection.CheckTemperingStart | hp_go/src/hp_heating_section.cpp:90-119 | when tempering starts, for how long, and what else stays |
| HeatingSections.HeatingSection.GetSectionState | hp_go/src/hp_heating_section.cpp:328-337 | once the flags are summed up, as they are from the first choice of a mode on, the answer speaks of the zones: 1 if and only if some zone heats, 2 if and only if none heats and some zone cools, 0 if and only if none does either |
| HeatingSections.HeatingSection.GetTemperingData | hp_go/src/hp_heating_section.cpp:70-88 | the two loops gather the heaters of the zones that are off, in order |
| HeatingSections.TempersExactly | hp_go/src/hp_heating_section.cpp:70-88 | a heater is told to temper if and only if a zone that is off has it, and for the tempering time of the section |
| HeatingSections.ProcessDecides | hp_go/src/hp_heating_section.cpp:144-302 | in a processed step the temperature decides so for each zone concerned, whatever it did before |
| HeatingSections.TemperingOnce | hp_go/src/hp_heating_section.cpp:90-119 | in any thirty minutes tempering starts in exactly one, for a section that is set up for it, does not heat and whose reference is no more than half a degree above the target; for any other section it never does |
| HeatingSections.ProcessFits | hp_go/src/hp_heating_section.cpp:144-313 | a processed step brings every zone into line with the mode and the flags into line with the zones, so the flags are never both set |
| HeatingControl.HeatingSystem.SetHeatingMode | hp_go/src/hp2heating.cpp:315-334 | all sections follow the new mode, and what is told to the actors |
| HeatingControl.HeatingSystem.ProcessSection | hp_go/src/hp2heating.cpp:292-313 | exactly the sections of that name are processed |
| HeatingControl.HeatingSystem.ProcessSectionTemp | hp_go/src/hp2heating.cpp:253-290 | a reading reaches every section with its sensor; a section that is tempering takes the temperature and is not processed |
| HeatingControl.HeatingSystem.SetAllQueryTemp | hp_go/src/hp2heating.cpp:138-147 | every section gets the new target |
| HeatingControl.HeatingSystem.SetAutoQueryTemp | hp_go/src/hp2heating.cpp:126-136 | every section gets the new automatic target, if it is above 0 |
| HeatingControl.HeatingSystem.DeactivateTempering | hp_go/src/hp2heating.cpp:149-158 | the first section that has the heater and does not heat ends its tempering |
| HeatingControl.HeatingSystem.CheckHeating | hp_go/src/hp2heating.cpp:165-224 | which sections start tempering in a minute, what their heaters are told, and what the master switch and the master cooler are told |
| HeatingControl.RequestsSet | hp_go/src/hp2heating.cpp:126-147 | a request for all sections sets every target, or takes it back to its default; one for the automatic mode counts only above 0 |
| HeatingControl.EcoTruncated | hp_go/src/hp2heating.cpp:273-322 | the economic temperature reaches the sections without its fraction |
| HeatingControl.ReferenceNoted | hp_go/src/hp2heating.cpp:253-290 | a reading of the reference sensor is noted even while tempering, and no other is |
| HeatingControl.DeactivatedExactly | hp_go/src/hp2heating.cpp:149-158 | exactly the first section that does not heat and has the heater is no longer tempering |
| HeatingControl.TemperingHolds | hp_go/src/hp2heating.cpp:253-290 | while a section is tempering, no reading and no new target moves its zones, over every run up to a processed step or the end of tempering |
| HeatingControl.DueExactly | hp_go/src/hp2heating.cpp:170-178 | in a minute exactly those heaters are told to temper whose zone is off in a section that is due |
| HeatingControl.ReadFits | hp_go/src/hp2heating.cpp:253-290 | a reading keeps a section in line with the mode, and leaves the zones of a tempering section alone |
| HeatingControl.AlwaysFits | hp_go/src/hp2heating.cpp:253-334 | over every run of events no heater is on in cooling mode and no cooler in any other |
| HeatingControl.FreshAlwaysFits | hp_go/src/hp2heating.cpp:253-334 | the same over every run of a heating whose zones start off |
| HeatingControl.ModeFits | hp_go/src/hp2heating.cpp:315-334 | whatever the zones did before, the choice of a mode brings all of them into line with it and the flags into line with them |
| HeatingControl.FlagsTellTheTruth | hp_go/src/hp2heating.cpp:253-334 | from the first choice of a mode on, whatever the state before, the flags of every section are the OR of its zones, and never both set |
| HeatingControl.EveryChangeTold | hp_go/src/hp_heating_section.cpp:144-302 | whenever a processed step switches a zone, all its actors are told |
| HeatingControl.ZoneFollowsItsSensor | hp_go/src/hp2heating.cpp:253-290 | in every mode and over any readings of any sensors a zone is where the readings of its own sensor alone would have brought it |
| HeatingControl.SectionSwitchingBound | hp_go/src/hp2heating.cpp:253-290 | the switching bound for every heater of a section over readings of any sensors |
| HeatingControl.SectionDecides | hp_go/src/hp2heating.cpp:253-290 | over any readings of any sensors and in every mode the last reading of its own sensor decides for a zone |
| HeatingControl.SectionCoolingBound | hp_go/src/hp2heating.cpp:253-290 | the switching bound for every cooler of a section |
| HeatingControl.OffMeansOff | hp_go/src/hp2heating.cpp:315-334 | from the choice of the mode OFF on every zone stays off over every run up to the choice of another |
| HeatingControl.AlwaysTold | hp_go/src/hp_heating_section.cpp:144-302 | in every processed step the heaters of a zone are told, or its coolers when cooling, and both when off, changed or not |
| HeatingControl.MasterFollowsZones | hp_go/src/hp2heating.cpp:190-221 | over every run from the first choice of a mode on, the master switch is told to be on if and only if some zone heats, or cools where there is no master cooler; the master cooler if and only if some zone cools; and never both |
| Gestures.RuleChecker.Turn | hp_go/src/hp2go.cpp:1851-1894 | one turn counts a tracker and fires at most its rule; behind an erased tracker nothing is done for the one that took its place |
| Gestures.RuleChecker.CheckRunningRules | hp_go/src/hp2go.cpp:1851-1894 | the erasing loop makes one pass over the trackers, missing the one behind each that ends |
| Gestures.RuleChecker.ProcessPress | hp_go/src/hp2go.cpp:2665-2698 | a press fires at once, starts a tracker, or ends one as a double press |
| Gestures.RuleChecker.ProcessRelease | hp_go/src/hp2go.cpp:2700-2729 | a release ends a tracker with the rule for its length, lets it wait for a second press, or ends it silently |
| Gestures.NextKeeps | hp_go/src/hp2go.cpp:2660-2729 | there is never more than one tracker for a pin, and no count exceeds its bound of 300 or less |
| Gestures.OneRule | hp_go/src/hp2go.cpp:1851-1894 | a tracker that is not for shutters fires at most one rule in its life; without double presses exactly one, told by the length of the press |
| Gestures.SilentExactly | hp_go/src/hp2go.cpp:2700-2729 | a finished tracker has fired nothing if and only if its pin has a double rule, it was released once the time for a second press was over, and the rule of a shutter had not been fired |
| Gestures.HeldInVain | hp_go/src/hp2go.cpp:2716-2725 | such presses exist for every length between the two thresholds |
| Gestures.PressTold | hp_go/src/hp2go.cpp:1851-1894 | which rules a press fires, for every button: by how long it was counted, how often released, and what ended it; and when it can end at all |
| Gestures.HeldDown | hp_go/src/hp2go.cpp:1851-1894 | a button that is held fires Short after 51 ticks, and goes on if it is for shutters, or Long after 301 if it has that rule |
| Gestures.ReleasedOnce | hp_go/src/hp2go.cpp:1875-1884 | a button with a double rule, released in time and not pressed again, fires Normal at tick 81 |
| Gestures.PressedTwice | hp_go/src/hp2go.cpp:2665-2698 | and Multi when it is pressed again up to then |
| Gestures.PressStarts | hp_go/src/hp2go.cpp:2665-2698 | a press without a tracker fires at once, or starts a tracker at the end and fires nothing |
| Gestures.PassProjects | hp_go/src/hp2go.cpp:1851-1894 | in a pass over all trackers the tracker of a pin does what it would do alone, or is missed |
| Gestures.RunProjects | hp_go/src/hp2go.cpp:2660-2729 | over every run the tracker of a pin and its rules are those of the pin alone |
| Gestures.LifeIsRun | hp_go/src/hp2go.cpp:2660-2729 | the life of a tracker is the run of its pin up to its end |
| Gestures.ReachedExactly | hp_go/src/hp2go.cpp:1851-1894 | a tracker is counted in a tick if and only if the run of trackers directly in front of it that end in this tick is even |
| Gestures.SecondMissed | hp_go/src/hp2go.cpp:1851-1894 | of two buttons held for as long the tick that ends the first press is not counted for the second |
| Gestures.CountLags | hp_go/src/hp2go.cpp:1851-1894 | the count of a tracker lags behind the ticks by no more than the number of trackers that were in front of it |
| Security.SecurityZone.SetSecStatus | hp_go/include/hp_security_zone.h:33-40 | the status, the end of the countdown, and what disarming resets |
| Security.SecurityZone.RepeatAction | hp_go/src/hp_security_zone.cpp:28-48 | when an alarm is repeated, and how often it has been |
| Security.SecurityZone.HasSensor | hp_go/src/hp_security_zone.cpp:50-66 | the loop over the sensors of an armed zone notes the time of a motion and finds the one that counts |
| Security.SensedExactly | hp_go/src/hp_security_zone.cpp:50-66 | a motion in an armed zone counts if and only if its sensor is listed there and the last motion is less than a minute old or the sensor is listed twice; the time is noted exactly when that is not so recent |
| Security.SecurityZone.DecreaseCounter | hp_go/src/hp_security_zone.cpp:68-76 | the countdown goes down by one and stops at 0 |
| Security.AlarmDesk.CheckPir | hp_go/src/hp_security.cpp:101-111 | the first zone that takes the sensor; the zones before it may note the time |
| Security.AlarmDesk.FindZone | hp_go/src/hp_security.cpp:113-123 | the first zone of that name |
| Security.AlarmDesk.ProcessRunningZone | hp_go/src/hp2go.cpp:1565-1640 | one second for the running list: zones count down, are armed or raise the alarm, and leave the list inside the loop |
| Security.AlarmDesk.SensorReport | hp_go/src/hp2go.cpp:2605-2630 | a motion starts the countdown of the armed zone that takes it, for both kinds of sensors; in alarm it repeats the action, and the timers of the actors set the pause before the next time |
| Security.AlarmDesk.ArmRequest | hp_go/src/hp2go.cpp:3991-3997 | only a zone that is off starts the countdown to be armed |
| Security.AlarmDesk.DisarmRequest | hp_go/src/hp2go.cpp:3998-4014 | the zone is off, its countdown over, and its first entry in the running list gone |
| Security.AlarmDesk.EraseRunningSecur | hp_go/src/hp2go.cpp:4046-4054 | exactly the first entry of that zone leaves the running list |
| Security.DisarmQuiets | hp_go/include/hp_security_zone.h:33-40 | a request to disarm makes the zone as new and changes no other |
| Security.DisarmErases | hp_go/src/hp2go.cpp:4046-4054 | exactly one entry of the zone leaves the running list, if it has any, and no other |
| Security.MotionStarts | hp_go/src/hp2go.cpp:2605-2612 | a motion that counts in an armed zone, and that no zone before it takes, sets its countdown and puts it at the end of the list; a motion detector does so only while no countdown runs |
| Security.AlarmComes | hp_go/src/hp2go.cpp:1565-1640 | a zone that is armed while nothing runs, the seconds of its countdown, two motions within a minute that concern no other zone, and its countdown again: then it is in alarm |
| Security.StatusChanges | hp_go/src/hp2go.cpp:1565-1640 | status 0 is entered only by disarming, 1 only from 0 and 2 only from 1, both at the end of a countdown |
| Security.DisarmIsStable | hp_go/src/hp2go.cpp:3998-4014 | whatever went on before, after a disarm no number of seconds, motions or requests for other zones moves a zone off status 0 before it is armed again, even with an entry left in the running list |
| Security.AlarmNeedsArmingThenMotion | hp_go/src/hp2go.cpp:1565-1640 | an alarm of a zone that was off needs a request to arm it and after that a motion reported by a sensor of that zone, wherever the run is cut |
| Security.AlarmNeedsTwoMotions | hp_go/src/hp_security_zone.cpp:50-66 | over every run in order of time that begins a minute or more after the last motion noted, an alarm needs the request, and behind it two motions of own sensors within a minute, or one of a sensor that is listed twice |
| Security.RepeatsExactly | hp_go/src/hp_security_zone.cpp:28-48 | the action is repeated exactly when a motion that counts is taken by a zone in alarm that repeats its action, the pause is over and the limit is not exceeded |
| Security.RepetitionsCounted | hp_go/src/hp_security_zone.cpp:28-48 | over every run in which it is not disarmed, the action of a zone with a limit is repeated as often as its counter says, and at most one time more than the limit |
| Security.PauseHolds | hp_go/include/hp_security_zone.h:30-32 | over every run behind a repetition, no motion before the timer of the last actor with one is over repeats the action, whatever is armed and disarmed |
| Security.CountdownSpeed | hp_go/src/hp2go.cpp:1565-1640 | a second takes exactly one off a countdown for each entry of its zone in the running list that the pass reaches, and it reaches no more than there are |
| Security.KeepsTimeExactly | hp_go/src/hp2go.cpp:1565-1640 | while no countdown ends, a second takes off as much as the zone stands in the list; so the countdown keeps time if and only if it stands there once |
| Security.ArmedTwice | hp_go/src/hp2go.cpp:3990-3996 | a zone asked for twice while it is off loses two seconds in the first one, asked for once it loses one |
| Security.CountdownLags | hp_go/src/hp2go.cpp:1565-1640 | over every run that is not about the zone its countdown loses at most one second for each of its entries in each second, and lags behind by no more seconds than there were entries in front of its first one, less those that are still there |
| Security.TurnMissed | hp_go/src/hp2go.cpp:1565-1640 | behind a countdown that ends, the next one does not lose its second |
| Security.AloneOnTime | hp_go/src/hp2go.cpp:1565-1640 | a zone that runs by itself comes to its next status after exactly the seconds of its countdown, and nothing else changes |

## Left out

The XML library:

- Texts that are not NUL-free, or that end inside a character of several bytes: there the library reads behind the
  terminator.  Specifications treat such a read as the end of the text; the routines require texts without it.
- Strings are sequences of bytes; wide characters and the Windows build are not part of this model.
- Reading and writing files, guessing the encoding, the line and column of an error, a missing (NULL) input.
- The strict and the approximate build, other clear tags than the four of the table, and other global options than the
  default ones for white space and comments; the character encoding is a parameter.
- Numeric character references so long that they overflow an `int`.
- Memory: arrays have a length, and growing them, reference counts and freeing nodes are left out.  Nodes hold their
  children as values: a child is added empty, parsed, and then put in the place of the empty one, so two handles to one
  node are not captured.
- Moving a node to another parent at a position, updating texts and attributes in place, deep copies, lookup by path or
  by attribute.
- RoundTrips.ParseUndoesPrint: plain names, trimmed texts that do not touch, clear tags that end where they should, and
  attribute names that are plain words; asked for by its name, only the direction from sound trees is stated.
- Printer.CreateXMLStringR: for the formats that its callers pass, -1 and upwards; below that the library would write
  indentation of negative length.
- `decodeSize` on data of nothing but `=` looks at the byte before the data; that byte is no part of the model.
- Buffers that the tool classes keep between two calls; the shifts and masks of base64 are written as arithmetic.

The controller:

- Sockets, the serial line, the database, the user interface, notifications, logging, threads and locks.  What a routine
  tells an actor or a rule is a value in its result or in a log; clocks are parameters.
- Temperatures and decoded numbers are reals, so rounding is not captured; the states of heaters and coolers are on or
  off; a value that a response stands for is not turned into its text.
- Heating: windows, reports, and sections on the Modbus.  The flags of a section before its first processed step are
  arbitrary.
- Gestures: the body of `process_rule`, pins that are not buttons, repeated messages, settings that change while a
  button is held.
- HeatingControl.HeatingSystem.CheckHeating: does not model the main vents; there the loop indexes the list of vents
  with the number of the section, which can lie behind its end.
- Security: simulation, sirens and messages of an alarm; a request for all zones is one request for each; the status
  that the database restores at the start is the initial state.  Which actors are told when an alarm is repeated is not
  captured, and their timers are a parameter: the routine takes the actors of an entry of the running list, whose number
  is that of another loop, and not of the zone in alarm.
- XBee and DALI frames, shutters, watering, and the rest of `create_send_data`.
