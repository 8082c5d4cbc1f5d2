# ProbateScraper extraction core, in Dafny

ProbateScraper reads saved pages of the Connecticut probate court's case search.
This project models the part of it that turns an already-parsed page into
records:

- the search-results page: the case listing and its header as fields, the
  case-type filter that picks detail links, and the page-number map built
  from the paging anchors;
- the case detail page: a table read row by row by a switch on a row counter.
  Rows 1 and 2 give the decedent's name, the case number, the case type and
  the filing date. Row 4 says whether fiduciaries follow. Every later row
  gives one raw fiduciary line;
- the fiduciary lines: blank lines split them into numbered groups held in a
  map, and the groups are then replayed in ascending index order. An ordinary
  group creates a new `Fiduciary`. A group that starts with `phone:` or `fax:`
  amends the most recent one;
- the `Fiduciary` record of seven fields (name, representative, two address
  lines, city/state/zip, phone, fax). It is filled from one group, either by
  position or as a phone/fax amendment.

Parsed HTML is an abstract input:

- a detail-table row is a sequence of cells, and each `Cell` has its text
  and the texts of its `span` elements;
- a listing row is a `DataRow` of column texts plus its resolved link;
- a paging `Anchor` is its class set, its text and its resolved link.

The Java exceptions the code can raise become `Err` values of `Errors.Result`:

- `MissingCell` and `MissingSpan` are an `IndexOutOfBoundsException` from a
  `get` on the cells or spans;
- `NullGroup` is the `NullPointerException` the replay raises at a missing
  group index;
- `NumberFormat` is a page number that `Integer.parseInt` rejects.

Files:

- `errors.dfy` (module `Errors`): `Result`, `Option`, `ExtractError`.
- `text.dfy` (module `Text`): the `java.lang.String` and `Integer` operations
  the code uses, plus `cleanText`. These are ASCII case mapping, `startsWith`,
  `indexOf`, `trim`, `equalsIgnoreCase` and `parseInt`.
- `fiduciary.dfy` (module `Fiduciaries`): the record as the value
  `FiduciaryFields`, functions that say what each operation does to it, and
  `class Fiduciary`. Its constructors and methods are proved to change its
  fields as those functions say.
- `detail_page.dfy` (module `DetailPage`): `extractCaseDetails`. The row switch
  is specified by `ScanRows`, the grouping by `Partition`, the replay by
  `Replay` and the printed fields by `DetailOutput`. The methods
  `ExtractCaseDetails`, `ReadRows`, `PartitionLines`, `ReplayGroups` and
  `DumpResults` do the same work step by step, with `Fiduciary` objects and a
  cursor on the current one.
- `list_page.dfy` (module `ListPage`): `extractCaseListing`,
  `extractCaseListHeader`, `extractDetailsLinks` and `extractPageLinks`.

The replay loop runs its index from 0 up to the number of stored groups.
When a leading blank line, or two blank lines in a row, skipped an index,
`get` returns null there and `isEmpty()` throws
(PageParserProbateList.java:254-256). The model keeps that behaviour: the
replay fails with `NullGroup(k)` at the first missing index `k`. It does not
skip the index. `BlankRunBreaksReplay` proves that every such layout that is
followed by a non-blank line fails.

## Model

| member | source | states |
|---|---|---|
| Text.CleanText | ProbateScraper/src/main/java/com/ect/probatescraper/PageParserProbateList.java:469-480 | null gives ""; otherwise the length is kept, every comma and double quote becomes a space, every other character is unchanged, and no comma or quote remains |
| Text.CleanTextKeepsClean | ProbateScraper/src/main/java/com/ect/probatescraper/PageParserProbateList.java:474-479 | a string without commas or quotes is returned unchanged |
| Text.CleanTextIdempotent | ProbateScraper/src/main/java/com/ect/probatescraper/PageParserProbateList.java:469-480 | cleaning a cleaned string gives the same string |
| Text.ReplaceChar | ProbateScraper/src/main/java/com/ect/probatescraper/PageParserProbateList.java:475-477 | String.replace(char, char): same length; every occurrence of the old character becomes the new one and every other position is unchanged |
| Text.LowerStr | ProbateScraper/src/main/java/com/ect/probatescraper/Fiduciary.java:53-56 | toLowerCase keeps the length and lower-cases position by position, so an index in the lower-cased string is an index in the original |
| Text.LowerStrSlice | ProbateScraper/src/main/java/com/ect/probatescraper/Fiduciary.java:65-68 | lower-casing a slice is the same slice of the lower-cased string |
| Text.EqualsIgnoreCaseIsLowerEquality | ProbateScraper/src/main/java/com/ect/probatescraper/PageParserProbateList.java:362 | equalsIgnoreCase holds exactly when the lower-cased strings are equal |
| Text.EqualsIgnoreCase | ProbateScraper/src/main/java/com/ect/probatescraper/PageParserProbateList.java:362 | String.equalsIgnoreCase on ASCII: the same length and equal characters up to case |
| Text.StartsWith | ProbateScraper/src/main/java/com/ect/probatescraper/PageParserProbateList.java:209-220 | String.startsWith, case-sensitive: the prefix is no longer than the text and equals its first characters; used for the "Fiduciary:"/"Fiduciaries:" test on row 4 and the "Phone:"/"Fax:" tests on contact rows |
| Text.LowerStartsWith | ProbateScraper/src/main/java/com/ect/probatescraper/Fiduciary.java:157 | the lower-cased string starts with a lower-case prefix exactly when the original starts with it ignoring case |
| Text.IndexOfFrom | ProbateScraper/src/main/java/com/ect/probatescraper/Fiduciary.java:65 | the result is the first match at or after the start index, or -1 when there is none there |
| Text.IndexOf | ProbateScraper/src/main/java/com/ect/probatescraper/Fiduciary.java:65 | indexOf gives the first position where the pattern occurs, and -1 exactly when it occurs nowhere |
| Text.TrimLeftIsSuffix | ProbateScraper/src/main/java/com/ect/probatescraper/PageParserProbateList.java:208 | stripping leading characters up to U+0020 leaves a suffix whose first character is above U+0020; every character removed is at most U+0020 |
| Text.TrimRightIsPrefix | ProbateScraper/src/main/java/com/ect/probatescraper/PageParserProbateList.java:224 | stripping trailing characters up to U+0020 leaves a prefix whose last character is above U+0020; every character removed is at most U+0020 |
| Text.TrimSlice | ProbateScraper/src/main/java/com/ect/probatescraper/PageParserProbateList.java:208 | trim returns a contiguous slice that neither starts nor ends with a character up to U+0020; it is empty exactly when every character is one |
| Text.TrimUntrimmed | ProbateScraper/src/main/java/com/ect/probatescraper/Fiduciary.java:54 | a string that neither starts nor ends with such a character is returned unchanged |
| Text.Trim | ProbateScraper/src/main/java/com/ect/probatescraper/PageParserProbateList.java:208 | String.trim: strips every leading and trailing character up to U+0020 |
| Text.ParseInt | ProbateScraper/src/main/java/com/ect/probatescraper/PageParserProbateList.java:408 | Integer.parseInt: a success is an optional sign followed by at least one ASCII digit, with a value in the 32-bit range; anything else is a NumberFormatException naming the text |
| Text.SignedValue | ProbateScraper/src/main/java/com/ect/probatescraper/PageParserProbateList.java:408 | the value an optional minus sign and a digit string denote |
| Text.ParseIntOfSignedDigits | ProbateScraper/src/main/java/com/ect/probatescraper/PageParserProbateList.java:408 | every text of an optional "+" or "-" and one or more digits, leading zeros included, parses to its signed value when that fits in 32 bits, and is a NumberFormatException naming the text otherwise |
| Text.DigitsValueLeadingZero | ProbateScraper/src/main/java/com/ect/probatescraper/PageParserProbateList.java:408 | a leading zero does not change the value of a digit string |
| Text.NatToDecimal | ProbateScraper/src/main/java/com/ect/probatescraper/PageParserProbateList.java:408 | decimal rendering of a page number: non-empty, digits only, no leading zero |
| Text.DigitsValueOfDecimal | ProbateScraper/src/main/java/com/ect/probatescraper/PageParserProbateList.java:408 | reading the digits back gives the number |
| Text.ParseIntOfDecimal | ProbateScraper/src/main/java/com/ect/probatescraper/PageParserProbateList.java:408 | parseInt reads back every rendered number up to 2^31 - 1 |
| Text.ParseIntOfNegativeDecimal | ProbateScraper/src/main/java/com/ect/probatescraper/PageParserProbateList.java:408 | a minus sign and digits parse back to the negative value, down to -2^31 |
| Text.ParseIntOverflow | ProbateScraper/src/main/java/com/ect/probatescraper/PageParserProbateList.java:408 | a number above 2^31 - 1 is rejected, not wrapped |
| Fiduciaries.IsPhoneFaxGroup | ProbateScraper/src/main/java/com/ect/probatescraper/Fiduciary.java:154-163 | true exactly when the group is non-null and non-empty and its first line starts with "phone:" or "fax:", ignoring case |
| Fiduciaries.FirstLetterNotPhoneFax | ProbateScraper/src/main/java/com/ect/probatescraper/Fiduciary.java:154-163 | a group whose first line starts with a letter other than p or f, in either case, is not a phone/fax group |
| Fiduciaries.PhoneFaxInfo | ProbateScraper/src/main/java/com/ect/probatescraper/Fiduciary.java:51-60 | the phone/fax amendment changes no field except phone and fax |
| Fiduciaries.PhoneFaxLine | ProbateScraper/src/main/java/com/ect/probatescraper/Fiduciary.java:52-58 | one turn of the loop: a line starting with "phone:" ignoring case sets the phone to the trimmed rest; otherwise one starting with "fax:" sets the fax; any other line changes nothing |
| Fiduciaries.IsPhoneLine | ProbateScraper/src/main/java/com/ect/probatescraper/Fiduciary.java:53 | a line sets the phone exactly when its lower-cased form starts with "phone:" |
| Fiduciaries.IsFaxLine | ProbateScraper/src/main/java/com/ect/probatescraper/Fiduciary.java:53-56 | a line sets the fax exactly when it is not a phone line and its lower-cased form starts with "fax:" (the else-if) |
| Fiduciaries.LastPhoneLine | ProbateScraper/src/main/java/com/ect/probatescraper/Fiduciary.java:53 | the index of the last line that starts with "phone:" ignoring case, or -1 when there is none |
| Fiduciaries.LastFaxLine | ProbateScraper/src/main/java/com/ect/probatescraper/Fiduciary.java:56 | the index of the last line that starts with "fax:" ignoring case and is not a phone line, or -1 when there is none |
| Fiduciaries.PhoneFaxLastWins | ProbateScraper/src/main/java/com/ect/probatescraper/Fiduciary.java:51-60 | after the loop, the phone is the trimmed text after "phone:" on the last phone line, and the fax likewise on the last fax line; with no such line the field keeps its old value |
| Fiduciaries.WithNameLine | ProbateScraper/src/main/java/com/ect/probatescraper/Fiduciary.java:64-72 | the name split changes only name and representedBy |
| Fiduciaries.NameLineMatched | ProbateScraper/src/main/java/com/ect/probatescraper/Fiduciary.java:65-69 | with a case-insensitive match of "represented by", the name, the matched text and the representative put back together give the line; the name stops at the first match |
| Fiduciaries.NameLineUnmatched | ProbateScraper/src/main/java/com/ect/probatescraper/Fiduciary.java:70-72 | without a match the whole line becomes the name and representedBy keeps its old value |
| Fiduciaries.NameLineSplit | ProbateScraper/src/main/java/com/ect/probatescraper/Fiduciary.java:64-72 | when "represented by" does not start, ignoring case, anywhere inside the text before the phrase, the split gives back exactly that text as the name and the text after the phrase, untrimmed, as the representative |
| Fiduciaries.RepresentedByMatchesAtJoin | ProbateScraper/src/main/java/com/ect/probatescraper/Fiduciary.java:65 | the phrase appended after a name is found, ignoring case, right after that name |
| Fiduciaries.NoMatchInside | ProbateScraper/src/main/java/com/ect/probatescraper/Fiduciary.java:65 | a name without the letter r holds no match of the phrase |
| Fiduciaries.AddressFields | ProbateScraper/src/main/java/com/ect/probatescraper/Fiduciary.java:62-88 | each field after setAddressGroupInfo, by group size: line 1 becomes addrLn1; a 3-line group puts line 2 in cityStateZip; a longer group puts line 2 in addrLn2 and line 3 in cityStateZip; phone and fax are untouched; an empty group changes nothing |
| Fiduciaries.AddressInfo | ProbateScraper/src/main/java/com/ect/probatescraper/Fiduciary.java:62-88 | setAddressGroupInfo on the field values: line 1 is split into name and representative, and the remaining lines go to the address fields by group size |
| Fiduciaries.AddressIgnoresExtraLines | ProbateScraper/src/main/java/com/ect/probatescraper/Fiduciary.java:74-86 | lines after the fourth do not matter |
| Fiduciaries.GroupInfoFrame | ProbateScraper/src/main/java/com/ect/probatescraper/Fiduciary.java:40-49 | a null or empty group changes nothing, a phone/fax group changes only phone and fax, and any other group changes neither |
| Fiduciaries.GroupInfo | ProbateScraper/src/main/java/com/ect/probatescraper/Fiduciary.java:40-49 | setGroupInfo on the field values: a null or empty group changes nothing; otherwise the group is read as a phone/fax group or as an address group, as isPhoneFaxGroup decides |
| Fiduciaries.ThreeLineGroupWithRepresentative | ProbateScraper/src/main/java/com/ect/probatescraper/Fiduciary.java:62-88 | a three-line group that is not a phone/fax group, whose first line is a name holding no match of the phrase, the phrase and a representative, fills exactly name, representedBy, addrLn1 and cityStateZip; addrLn2 stays "" |
| Fiduciaries.WorkedExample | ProbateScraper/src/main/java/com/ect/probatescraper/Fiduciary.java:62-88 | ["Jane Doe represented by John Smith", "123 Main St", "Town CT 06000"] gives name "Jane Doe ", representedBy " John Smith", addrLn1 "123 Main St", addrLn2 "" and cityStateZip "Town CT 06000" |
| Fiduciaries.Fiduciary.constructor | ProbateScraper/src/main/java/com/ect/probatescraper/Fiduciary.java:19-28 | all seven fields are "" |
| Fiduciaries.Fiduciary.FromName | ProbateScraper/src/main/java/com/ect/probatescraper/Fiduciary.java:30-33 | the name is stored verbatim, with no "represented by" split, and every other field is "" |
| Fiduciaries.Fiduciary.FromGroup | ProbateScraper/src/main/java/com/ect/probatescraper/Fiduciary.java:35-38 | the record is the empty record after setGroupInfo |
| Fiduciaries.Fiduciary.SetGroupInfo | ProbateScraper/src/main/java/com/ect/probatescraper/Fiduciary.java:40-49 | the new field values are GroupInfo of the old ones: null or empty does nothing, otherwise the call dispatches on isPhoneFaxGroup |
| Fiduciaries.Fiduciary.SetPhoneFaxGroupInfo | ProbateScraper/src/main/java/com/ect/probatescraper/Fiduciary.java:51-60 | the loop leaves the fields as PhoneFaxInfo of the old ones, so PhoneFaxLastWins describes them |
| Fiduciaries.Fiduciary.SetAddressGroupInfo | ProbateScraper/src/main/java/com/ect/probatescraper/Fiduciary.java:62-88 | the new field values are AddressInfo of the old ones, so AddressFields describes them |
| Fiduciaries.Fiduciary.SetName | ProbateScraper/src/main/java/com/ect/probatescraper/Fiduciary.java:95-104 | the same split as line 0 of an address group; without a match the old representedBy is kept |
| Fiduciaries.Fiduciary.SetRepresentedBy | ProbateScraper/src/main/java/com/ect/probatescraper/Fiduciary.java:110-112 | only representedBy changes |
| Fiduciaries.Fiduciary.SetAddrLn1 | ProbateScraper/src/main/java/com/ect/probatescraper/Fiduciary.java:118-120 | only addrLn1 changes |
| Fiduciaries.Fiduciary.SetAddrLn2 | ProbateScraper/src/main/java/com/ect/probatescraper/Fiduciary.java:126-128 | only addrLn2 changes |
| Fiduciaries.Fiduciary.SetCityStateZip | ProbateScraper/src/main/java/com/ect/probatescraper/Fiduciary.java:134-136 | only cityStateZip changes |
| Fiduciaries.Fiduciary.SetPhone | ProbateScraper/src/main/java/com/ect/probatescraper/Fiduciary.java:142-144 | only phone changes |
| Fiduciaries.Fiduciary.SetFax | ProbateScraper/src/main/java/com/ect/probatescraper/Fiduciary.java:150-152 | only fax changes |
| DetailPage.RowReadable | ProbateScraper/src/main/java/com/ect/probatescraper/PageParserProbateList.java:193-227 | a row can be read exactly when it has what its position asks for. Rows 1-2 need two cells and a second span in cell 1. Row 3 needs nothing. Rows 4 and later need a first cell. A Phone:/Fax: cell in row 5 or later needs a second span |
| DetailPage.RowError | ProbateScraper/src/main/java/com/ect/probatescraper/PageParserProbateList.java:194-226 | the exception a row raises at its position, if any: a missing cell 0 or 1, or a missing span 1, in the order the gets run; row 3 is never read |
| DetailPage.AnnouncesFiduciaries | ProbateScraper/src/main/java/com/ect/probatescraper/PageParserProbateList.java:208-209 | row 4 announces fiduciaries when its trimmed text starts with "Fiduciary:" or "Fiduciaries:" |
| DetailPage.IsContactCell | ProbateScraper/src/main/java/com/ect/probatescraper/PageParserProbateList.java:217-221 | a cell whose text starts with "Phone:" or "Fax:" |
| DetailPage.RawLine | ProbateScraper/src/main/java/com/ect/probatescraper/PageParserProbateList.java:214-225 | the raw line of a fiduciary row: the label and span 1 for a Phone:/Fax: cell, otherwise the trimmed, then cleaned, text |
| DetailPage.RowStep | ProbateScraper/src/main/java/com/ect/probatescraper/PageParserProbateList.java:192-227 | one turn of the switch on the row counter, on the method's local variables |
| DetailPage.ScanRows | ProbateScraper/src/main/java/com/ect/probatescraper/PageParserProbateList.java:191-228 | the row loop over the whole table: the first row that cannot be read ends it with its exception |
| DetailPage.ScanRowsFailsAtFirstBadRow | ProbateScraper/src/main/java/com/ect/probatescraper/PageParserProbateList.java:191-228 | the first row that cannot be read ends the method with that row's exception, in the order the gets run |
| DetailPage.ScanRowsSucceeds | ProbateScraper/src/main/java/com/ect/probatescraper/PageParserProbateList.java:191-228 | the row loop completes exactly when every row can be read |
| DetailPage.ScanRowsHeader | ProbateScraper/src/main/java/com/ect/probatescraper/PageParserProbateList.java:194-203 | row 1 gives name = cleanText(cell 0 text) and caseNumber = span 1 of cell 1; row 2 gives caseType = cell 0 text and dateFiled = span 1 of cell 1; a header field whose row is absent stays null |
| DetailPage.ScanRowsFlag | ProbateScraper/src/main/java/com/ect/probatescraper/PageParserProbateList.java:206-212 | the fiduciary flag is set exactly when row 4 exists and its trimmed text starts, case-sensitively, with "Fiduciary:" or "Fiduciaries:" |
| DetailPage.ScanRowsRawLines | ProbateScraper/src/main/java/com/ect/probatescraper/PageParserProbateList.java:213-226 | every row from row 5 on adds exactly one raw line, in row order, and rows 1-4 add none |
| DetailPage.ScanRowsNext | ProbateScraper/src/main/java/com/ect/probatescraper/PageParserProbateList.java:191-228 | one more row: an exception already raised stays, a row that cannot be read raises its exception, and a readable one takes one turn of the switch |
| DetailPage.ScanRowsErrorStays | ProbateScraper/src/main/java/com/ect/probatescraper/PageParserProbateList.java:191-228 | once a row has raised an exception, later rows do not change the outcome |
| DetailPage.ReadableSplit | ProbateScraper/src/main/java/com/ect/probatescraper/PageParserProbateList.java:191-228 | all rows can be read exactly when all but the last can and the last can at its position |
| DetailPage.RowStepParts | ProbateScraper/src/main/java/com/ect/probatescraper/PageParserProbateList.java:192-227 | what one turn of the switch does to each local variable |
| DetailPage.RawLineIsBlank | ProbateScraper/src/main/java/com/ect/probatescraper/PageParserProbateList.java:217-225 | a raw line is empty, and so separates groups, exactly when its cell is not a Phone:/Fax: cell and all its characters are trimmable |
| DetailPage.SeparatorCharactersBecomeSpaces | ProbateScraper/src/main/java/com/ect/probatescraper/PageParserProbateList.java:224 | the trim runs before cleanText, so a cell of commas and quotes gives a line of as many spaces, not a separator |
| DetailPage.UnannouncedFiduciariesAreIgnored | ProbateScraper/src/main/java/com/ect/probatescraper/PageParserProbateList.java:230-231 | without the row-4 announcement the fiduciary list stays empty, whatever later rows hold |
| DetailPage.FiduciaryList | ProbateScraper/src/main/java/com/ect/probatescraper/PageParserProbateList.java:230-270 | the fiduciary list: empty unless row 4 announced fiduciaries and raw lines exist; otherwise the replay of the partition, with its exception |
| DetailPage.CaseDetails | ProbateScraper/src/main/java/com/ect/probatescraper/PageParserProbateList.java:181-270 | the four header values and the fiduciary list, or the first exception raised |
| DetailPage.NotesIsNoAnnouncement | ProbateScraper/src/main/java/com/ect/probatescraper/PageParserProbateList.java:208-209 | a fourth row reading "Notes:" does not announce fiduciaries |
| DetailPage.PartitionShape | ProbateScraper/src/main/java/com/ect/probatescraper/PageParserProbateList.java:233-250 | the counter ends at the number of blank lines; groups are stored only under indices the counter reached; every stored group, and every line in it, is non-empty |
| DetailPage.Partition | ProbateScraper/src/main/java/com/ect/probatescraper/PageParserProbateList.java:233-250 | the grouping loop: a blank line increments the group counter; any other line is appended to the group under the current counter, created when absent |
| DetailPage.PartitionCounter | ProbateScraper/src/main/java/com/ect/probatescraper/PageParserProbateList.java:237-239 | the counter counts the blank lines |
| DetailPage.PartitionKeepsLines | ProbateScraper/src/main/java/com/ect/probatescraper/PageParserProbateList.java:235-250 | reading the groups in index order yields the non-blank lines in input order: none lost, repeated or moved |
| DetailPage.PartitionKeys | ProbateScraper/src/main/java/com/ect/probatescraper/PageParserProbateList.java:235-250 | index k holds a group exactly when some non-blank line has k blank lines before it |
| DetailPage.PartitionAppend | ProbateScraper/src/main/java/com/ect/probatescraper/PageParserProbateList.java:235-250 | one more line: a blank one only increments the counter; any other is appended to the current group, which is created when absent |
| DetailPage.PartitionWithoutBlanks | ProbateScraper/src/main/java/com/ect/probatescraper/PageParserProbateList.java:235-250 | lines with no blank among them form the single group 0 |
| DetailPage.PartitionOfTwoGroups | ProbateScraper/src/main/java/com/ect/probatescraper/PageParserProbateList.java:235-250 | a run of lines, a blank and one more line make groups 0 and 1 |
| DetailPage.PartitionLines | ProbateScraper/src/main/java/com/ect/probatescraper/PageParserProbateList.java:233-250 | the partition loop fills the map with exactly the groups of Partition |
| DetailPage.ReplaySucceeds | ProbateScraper/src/main/java/com/ect/probatescraper/PageParserProbateList.java:254-258 | the replay up to n completes exactly when every index below n holds a group |
| DetailPage.Step | ProbateScraper/src/main/java/com/ect/probatescraper/PageParserProbateList.java:256-268 | one turn of the replay loop: an empty group is skipped, a phone/fax group amends the last fiduciary or is dropped when there is none, and any other group appends a new fiduciary built from it |
| DetailPage.ReplayUpTo | ProbateScraper/src/main/java/com/ect/probatescraper/PageParserProbateList.java:254-269 | the replay for indices below n: a missing index dereferences null and ends it with that index |
| DetailPage.Replay | ProbateScraper/src/main/java/com/ect/probatescraper/PageParserProbateList.java:254 | the replay runs its index up to the number of stored groups |
| DetailPage.ReplayFailsAtFirstGap | ProbateScraper/src/main/java/com/ect/probatescraper/PageParserProbateList.java:254-256 | otherwise it fails with the null dereference at the first missing index |
| DetailPage.ReplayFailsOnGap | ProbateScraper/src/main/java/com/ect/probatescraper/PageParserProbateList.java:254-256 | a missing index below a stored one makes the replay fail |
| DetailPage.DenseKeysBelowSize | ProbateScraper/src/main/java/com/ect/probatescraper/PageParserProbateList.java:254 | when every index below size() holds a group, those are all the groups |
| DetailPage.BelowMembers | ProbateScraper/src/main/java/com/ect/probatescraper/PageParserProbateList.java:254 | the index range 0..n-1 visited by the loop |
| DetailPage.BelowSize | ProbateScraper/src/main/java/com/ect/probatescraper/PageParserProbateList.java:254 | the loop visits n indices |
| DetailPage.BlankRunSkipsIndex | ProbateScraper/src/main/java/com/ect/probatescraper/PageParserProbateList.java:237-246 | a leading blank line, or a blank line after another one, skips a group index |
| DetailPage.NoLineAtSkippedIndex | ProbateScraper/src/main/java/com/ect/probatescraper/PageParserProbateList.java:237-246 | no non-blank line is counted under a skipped index |
| DetailPage.LineIndexStored | ProbateScraper/src/main/java/com/ect/probatescraper/PageParserProbateList.java:243-249 | the map holds a group under the number of blank lines before any non-blank line (its contents are stated by PartitionGroups) |
| DetailPage.LinesAt | ProbateScraper/src/main/java/com/ect/probatescraper/PageParserProbateList.java:243-249 | the non-blank lines preceded by exactly k blank lines, in input order: what the loop appends while its counter is k |
| DetailPage.PartitionGroups | ProbateScraper/src/main/java/com/ect/probatescraper/PageParserProbateList.java:235-250 | the group stored under k is exactly LinesAt(lines, k), the non-blank lines with k blank lines before them, in input order; when no group is stored under k there is no such line |
| DetailPage.BlanksMonotone | ProbateScraper/src/main/java/com/ect/probatescraper/PageParserProbateList.java:237-239 | the counter never decreases |
| DetailPage.BlankRunBreaksReplay | ProbateScraper/src/main/java/com/ect/probatescraper/PageParserProbateList.java:235-256 | such a skipped index followed later by a non-blank line always makes the replay dereference null |
| DetailPage.ReplayErrorStays | ProbateScraper/src/main/java/com/ect/probatescraper/PageParserProbateList.java:254-256 | once the replay has hit a missing index, running it further does not change the error |
| DetailPage.ReplayCount | ProbateScraper/src/main/java/com/ect/probatescraper/PageParserProbateList.java:253-269 | the number of fiduciaries equals the number of groups that are neither empty nor phone/fax groups |
| DetailPage.ReplayFiduciaryOrigin | ProbateScraper/src/main/java/com/ect/probatescraper/PageParserProbateList.java:265-267 | the fiduciary created by group k sits at the position given by the count of earlier creating groups; apart from phone and fax, it is the record that group builds |
| DetailPage.Amended | ProbateScraper/src/main/java/com/ect/probatescraper/PageParserProbateList.java:260-263 | the record started by group k after the phone/fax groups from k+1 up to n-1 amend it in order |
| DetailPage.ReplayCursor | ProbateScraper/src/main/java/com/ect/probatescraper/PageParserProbateList.java:253-269 | until another group starts a fiduciary, the fiduciary group k started is the last in the list, at the position given by the count of earlier creating groups, and is that group's record amended by every phone/fax group since |
| DetailPage.ReplayFiduciaryFinal | ProbateScraper/src/main/java/com/ect/probatescraper/PageParserProbateList.java:253-269 | after the whole replay, the fiduciary group k started, phone and fax included, is that group's record amended in order by the phone/fax groups after k up to the next creating group; a later creating group leaves it alone |
| DetailPage.StepKeepsAddresses | ProbateScraper/src/main/java/com/ect/probatescraper/PageParserProbateList.java:256-268 | one replay step never shortens the list and leaves every fiduciary but the last unchanged; a non-empty phone/fax group with a fiduciary to amend replaces the last one by its setPhoneFaxGroupInfo result; any other step keeps every earlier fiduciary exactly |
| DetailPage.LeadingContinuationsDiscarded | ProbateScraper/src/main/java/com/ect/probatescraper/PageParserProbateList.java:260-263 | phone/fax groups before any ordinary group have no fiduciary to amend and are dropped |
| DetailPage.ReplayOfTwoGroups | ProbateScraper/src/main/java/com/ect/probatescraper/PageParserProbateList.java:253-269 | an ordinary group followed by a phone/fax group makes one fiduciary, amended by the second group |
| DetailPage.AddressThenContactLine | ProbateScraper/src/main/java/com/ect/probatescraper/PageParserProbateList.java:233-269 | address lines, a blank line and a phone/fax line make one fiduciary with that contact |
| DetailPage.PhoneLineSetsPhone | ProbateScraper/src/main/java/com/ect/probatescraper/PageParserProbateList.java:218 | a row-built "Phone:" line is a phone/fax group and sets the phone to the span text |
| DetailPage.RepresentedFiduciaryWithPhone | ProbateScraper/src/main/java/com/ect/probatescraper/PageParserProbateList.java:233-269 | a name line with a representative (as in ThreeLineGroupWithRepresentative), a street, a city/state/zip, a blank line and a Phone: line whose number has no blank at either end give exactly one fiduciary with those five values |
| DetailPage.GroupingExample | ProbateScraper/src/main/java/com/ect/probatescraper/PageParserProbateList.java:233-269 | the worked example plus a blank line and "Phone:2035551212" gives that record with phone "2035551212" |
| DetailPage.Views | ProbateScraper/src/main/java/com/ect/probatescraper/PageParserProbateList.java:272-297 | the field values of a list of Fiduciary objects, one per object, in list order |
| DetailPage.ReplayGroups | ProbateScraper/src/main/java/com/ect/probatescraper/PageParserProbateList.java:253-269 | the loop over Fiduciary objects, with its cursor, fails exactly as Replay does; otherwise the objects' fields are Replay's records, in order |
| DetailPage.ApplyGroup | ProbateScraper/src/main/java/com/ect/probatescraper/PageParserProbateList.java:256-268 | one loop body: the list's values move as Step says, and the cursor stays on the last fiduciary |
| DetailPage.AmendCursor | ProbateScraper/src/main/java/com/ect/probatescraper/PageParserProbateList.java:260-263 | setPhoneFaxGroupInfo on the cursor amends the last fiduciary and no other |
| DetailPage.AddFiduciary | ProbateScraper/src/main/java/com/ect/probatescraper/PageParserProbateList.java:265-267 | a new Fiduciary built from the group is appended and becomes the cursor |
| DetailPage.FiduciaryColumns | ProbateScraper/src/main/java/com/ect/probatescraper/PageParserProbateList.java:282-297 | seven printed fields per fiduciary |
| DetailPage.Show | ProbateScraper/src/main/java/com/ect/probatescraper/PageParserProbateList.java:273-279 | PrintWriter.print of a string: a header value never read prints as "null" |
| DetailPage.Columns | ProbateScraper/src/main/java/com/ect/probatescraper/PageParserProbateList.java:283-295 | the seven getters of one fiduciary in print order |
| DetailPage.DetailRecord | ProbateScraper/src/main/java/com/ect/probatescraper/PageParserProbateList.java:272-299 | the printed fields: the four header values, then seven per fiduciary |
| DetailPage.DetailOutput | ProbateScraper/src/main/java/com/ect/probatescraper/PageParserProbateList.java:181-300 | the result of extractCaseDetails: the printed fields, or the exception that ended it |
| DetailPage.FiduciaryColumnsLayout | ProbateScraper/src/main/java/com/ect/probatescraper/PageParserProbateList.java:282-297 | fiduciary i occupies fields 7i to 7i+6 of that part, in getter order |
| DetailPage.ReadRows | ProbateScraper/src/main/java/com/ect/probatescraper/PageParserProbateList.java:191-228 | the row loop with its switch gives exactly ScanRows: the same exception, or the same locals |
| DetailPage.BuildFiduciaries | ProbateScraper/src/main/java/com/ect/probatescraper/PageParserProbateList.java:230-270 | no fiduciaries unless the flag is set and raw lines exist; otherwise the partition and the replay |
| DetailPage.DumpResults | ProbateScraper/src/main/java/com/ect/probatescraper/PageParserProbateList.java:272-299 | the four header values, with "null" for one never read, then each fiduciary's seven getters in list order |
| DetailPage.ExtractCaseDetails | ProbateScraper/src/main/java/com/ect/probatescraper/PageParserProbateList.java:181-300 | the whole method gives exactly DetailOutput: the printed fields, or the exception that ended it |
| ListPage.ListingFields | ProbateScraper/src/main/java/com/ect/probatescraper/PageParserProbateList.java:318-330 | seven fields in order. The case number, case type, district and href are verbatim. The three name parts are cleanText of the last name, first name and middle initial, so they keep their length and hold no comma or quote |
| ListPage.CleanNamesUnchanged | ProbateScraper/src/main/java/com/ect/probatescraper/PageParserProbateList.java:320-324 | names without commas or quotes are printed verbatim |
| ListPage.ExtractCaseListing | ProbateScraper/src/main/java/com/ect/probatescraper/PageParserProbateList.java:312-334 | one line of fields per data row, in document order, and the returned count equals the number of rows |
| ListPage.ExtractCaseListHeader | ProbateScraper/src/main/java/com/ect/probatescraper/PageParserProbateList.java:302-310 | the column-header texts in order, then "Case Link": one field more than there are headers |
| ListPage.ExtractDetailsLinks | ProbateScraper/src/main/java/com/ect/probatescraper/PageParserProbateList.java:356-372 | the loop gives DetailLinks: nothing for a null target, otherwise the links of the matching rows |
| ListPage.Selected | ProbateScraper/src/main/java/com/ect/probatescraper/PageParserProbateList.java:362 | a row is selected when its case type equalsIgnoreCase the target |
| ListPage.Matching | ProbateScraper/src/main/java/com/ect/probatescraper/PageParserProbateList.java:360-367 | the links (case number and href) of the selected rows, in row order |
| ListPage.DetailLinks | ProbateScraper/src/main/java/com/ect/probatescraper/PageParserProbateList.java:356-372 | no links for a null target, otherwise the links of the matching rows |
| ListPage.MatchingMembers | ProbateScraper/src/main/java/com/ect/probatescraper/PageParserProbateList.java:360-367 | a (case number, href) pair is in the result exactly when some row whose case type equalsIgnoreCase the target has it |
| ListPage.MatchingAppend | ProbateScraper/src/main/java/com/ect/probatescraper/PageParserProbateList.java:360-367 | the filter distributes over concatenation, so the result keeps row order |
| ListPage.MatchingLength | ProbateScraper/src/main/java/com/ect/probatescraper/PageParserProbateList.java:360-367 | one link per matching row, and never more links than rows |
| ListPage.MatchingAllOrNone | ProbateScraper/src/main/java/com/ect/probatescraper/PageParserProbateList.java:360-367 | if every row matches, the result is all of them in order; if none matches, it is empty |
| ListPage.IncludeLink | ProbateScraper/src/main/java/com/ect/probatescraper/PageParserProbateList.java:398-405 | the loop over the class names gives true exactly when "current-page" is not among them |
| ListPage.PageLinksErrorStays | ProbateScraper/src/main/java/com/ect/probatescraper/PageParserProbateList.java:407-408 | once an anchor's text has raised NumberFormatException, the later anchors do not matter |
| ListPage.ExtractPageLinks | ProbateScraper/src/main/java/com/ect/probatescraper/PageParserProbateList.java:394-416 | the loop gives PageLinks: the same map, or the same NumberFormatException |
| ListPage.IsLink | ProbateScraper/src/main/java/com/ect/probatescraper/PageParserProbateList.java:398-405 | an anchor is a page link when its classes do not include "current-page" |
| ListPage.PageLinks | ProbateScraper/src/main/java/com/ect/probatescraper/PageParserProbateList.java:394-416 | the page map: every page-link anchor puts its parsed text as key and its href as value, later ones overwriting; a text parseInt rejects ends it with that exception |
| ListPage.PageLinksFailure | ProbateScraper/src/main/java/com/ect/probatescraper/PageParserProbateList.java:407-408 | the method fails exactly when some non-current anchor's text is not an int, and then with the first such text |
| ListPage.PageLinksKeys | ProbateScraper/src/main/java/com/ect/probatescraper/PageParserProbateList.java:397-413 | on success, a number is a key exactly when some non-current anchor's text parses to it; current-page anchors are never inserted |
| ListPage.PageLinksLastWins | ProbateScraper/src/main/java/com/ect/probatescraper/PageParserProbateList.java:411 | the link stored under a number is that of the last non-current anchor with that number: later anchors overwrite earlier ones |
| ListPage.CurrentPageIgnored | ProbateScraper/src/main/java/com/ect/probatescraper/PageParserProbateList.java:398-407 | removing a current-page anchor from anywhere in the list changes neither the map nor the error |

## Left out

- Reading and writing files is not modelled. This covers `main`, directory
  listing and sorting, `openOutputFiles`/`openOutput`/`closeOutput`,
  `createCaseListFile`/`createCaseDetailFile` and the `File`-taking overloads
  of `extractDetailsLinks` and `extractPageLinks`. Emitted text becomes a
  sequence of fields; the commas between fields and the line ends are not
  modelled.
- Jsoup parsing, CSS selection and `abs:href` URL resolution are foreign
  library behaviour. Rows, cells, spans, class sets and hrefs are inputs.
- `getJulianWithMillis`, `getYYDDDFromDate` and `getNoMillisecondsInToday`
  depend on the clock and on date formatting.
- The `LOG` calls are not modelled; they only log.
- `extractCaseDetailsHeader` prints a constant list of labels and has no logic.
- CaseLookupPageCollector.java, which does HTTP fetching, sleeps and the crawl
  loop, is not part of this model.
- The getters of `Fiduciary` are not separate members. They are reads of the
  class's fields, as in `DumpResults`.
- Text.LowerStr: only ASCII letters are case-mapped, and Text.EqualsIgnoreCase
  works the same way. Java's Unicode case mapping can change a string's length
  for some characters; the model does not capture that.
- Text.ParseInt: only ASCII digits are accepted. Java's `Character.digit`
  also accepts other Unicode digits.
- ListPage.ExtractCaseListing: the count is an unbounded natural number.
  Java's `int count` would wrap after 2^31 - 1 rows.
- The `Hashtable` of groups is a value map from index to group. Java appends
  to a group list that is already stored in the table. Appending to the stored
  list and replacing it give the same table, so the aliasing is not modelled.
- extractCaseDetails is one Java method. Here it is `ExtractCaseDetails` with
  one method per phase (`ReadRows`, `BuildFiduciaries`, `DumpResults`) and
  methods for the replay loop body (`ApplyGroup`, `AmendCursor`,
  `AddFiduciary`), so that each proof stays small.
