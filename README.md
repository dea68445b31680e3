# Equipment incident reports: a verified model

The modelled program keeps incident reports about electronic equipment in memory.
- A report is either a **hardware** report or a **software** report.
- Both kinds share an equipment id, a description, a severity and a date.
- The severity is one of `ALTO`, `MEDIO` or `BAJO`.
- A hardware report also has a component type, a serial number and a "has to be replaced" flag.
- A software report also has an operating system, a software name and a version.
- Each report renders as one dash-separated line.

The `Controller` holds the reports in insertion order. It offers:
- searches by id, by severity code (1, 2 or 3) and from a given date onward;
- the distinct equipment ids, in the order they were first seen;
- the earliest and latest report dates;
- a text export for one kind of report: a header line, a 40-dash separator, then one line per report of that kind.

The stateless `Validator` turns raw user input into a severity, a serial number or an accepted version string. On bad input it returns a typed error instead.

Files:
- `wrappers.dfy` (module `Wrappers`): `Option`, `Result`, and `Outcome` (a check that passes or fails with an error).
- `strings.dfy` (module `Strings`): decimal rendering and parsing, zero padding, ASCII upper-casing, joining on and splitting at a separator character.
- `dates.dfy` (module `Dates`):
  - calendar dates for years 0000 to 9999, ordered lexicographically;
  - their ISO rendering by `LocalDate.toString`;
  - their rendering by the `DateTimeFormatter` pattern `yyyy-MM-dd`, whose `yyyy` is the year of era, so year 0 prints as 0001.
- `reports.dfy` (module `Reports`):
  - `Severity`, `Kind` and `Details`; `Details` is the part in which the two report kinds differ;
  - the mutable `Report` class, with its two constructors and its setters;
  - the `getReportInfo` rendering, with lemmas about the rendered line.
- `validator.dfy` (module `Validator`): the three validations, each with both its accepting and its rejecting side characterized.
- `controller.dfy` (module `Store`):
  - the queries as an order-preserving filter `Select`;
  - first-seen de-duplication `Dedup`;
  - the export text and file name as functions;
  - the `Controller` class. The search, id and export loops are proved against those functions. The earliest-date and latest-date loops are proved against the minimum and maximum property itself: the result is a report's date, on or before (on or after) every report's date.
- `scenario.dfy` (module `Scenario`): a store with two reports for one piece of equipment, and what each search, the id list, the earliest and latest dates, the full list and the hardware export return on it; and the same queries on an empty store.

The Java class hierarchy `Report` / `Hardware` / `Software` is one Dafny class `Report`.
- Its `details` field holds a `Details` value with one constructor per subclass.
- `instanceof Hardware` becomes `details.Hardware?`.
- The subclass setters require the matching kind.
- Fields are read directly. A Java getter returns the field it reads.

## Model

| member | source | states |
|---|---|---|
| Reports.Report.Hardware | src/model/Hardware.java:29-36 | a new hardware report stores the four common fields and the component type, serial number and replace flag unchanged; the serial number is not checked for positivity |
| Reports.Report.Software | src/model/Software.java:29-36 | a new software report stores the four common fields and the operating system, software name and version unchanged; the version is not re-validated |
| Reports.Report.SetIdGadget | src/model/Report.java:49-51 | the id becomes the argument; no other field may change |
| Reports.Report.SetDescription | src/model/Report.java:67-69 | the description becomes the argument; no other field may change |
| Reports.Report.SetSeverityType | src/model/Report.java:85-87 | the severity becomes the argument; no other field may change |
| Reports.Report.SetDateReport | src/model/Report.java:103-105 | the date becomes the argument; no other field may change |
| Reports.Report.SetComponentType | src/model/Hardware.java:52-54 | only the component type of the hardware details changes |
| Reports.Report.SetSerialNumber | src/model/Hardware.java:70-72 | only the serial number of the hardware details changes |
| Reports.Report.SetHasToReplace | src/model/Hardware.java:88-90 | only the replace flag of the hardware details changes |
| Reports.Report.SetSystemOperation | src/model/Software.java:52-54 | only the operating system of the software details changes |
| Reports.Report.SetSoftwareName | src/model/Software.java:70-72 | only the software name of the software details changes |
| Reports.Report.SetVersion | src/model/Software.java:88-90 | only the version of the software details changes |
| Reports.Report.ReportInfo | src/model/Hardware.java:98-102 | the rendered line begins with the id and a dash; a hardware line ends with a dash and `SÃ­` or `No`, a software line (src/model/Software.java:98-102) with a dash and the stored version |
| Reports.InfoSplitsIntoFields | src/model/Hardware.java:98-101 | when no text field holds a dash and the serial number is not negative, splitting the line at dashes gives back id, description, severity name, year, month, day and the three fields of the kind, in that order; so the rendering is the dash-join of exactly these fields |
| Dates.IsoFields | src/model/Hardware.java:100 | the date renders as 10 characters with dashes at positions 4 and 7, and the three digit groups read back as year, month and day |
| Dates.EraDateFields | src/model/Controller.java:208-209 | the `yyyy-MM-dd` part of the file-name pattern gives 10 characters with dashes at positions 4 and 7, and its digit groups read back as the year of era, the month and the day |
| Dates.EraDateCollisions | src/model/Controller.java:208-209 | two dates print alike under `yyyy-MM-dd` if and only if they are equal or share month and day in the years 0 and 1, whose year of era is 1 in both cases |
| Dates.IsoInjective | src/model/Hardware.java:100 | two dates render the same if and only if they are equal |
| Dates.IsoSplit | src/model/Software.java:100 | splitting the rendered date at dashes gives the zero-padded year, month and day |
| Strings.NatStringValue | src/model/Hardware.java:101 | the decimal rendering of a non-negative number, such as a non-negative serial number, reads back as its value; every 32-bit serial, negative ones included, is covered by `Validator.ParseIntString` |
| Strings.ZeroPadValue | src/model/Hardware.java:100 | for a number of at most `width` digits, zero padding to that width keeps the value, has exactly that width and holds only digits |
| Strings.SplitJoin | src/model/Software.java:99-101 | splitting the dash-join of a non-empty list of dash-free parts gives the parts back |
| Validator.ValidateSeverity | src/model/Validator.java:24-30 | succeeds exactly when the ASCII upper-case form of the input is `ALTO`, `MEDIO` or `BAJO`; the severity it returns has that name; otherwise it fails with the invalid-severity message |
| Validator.ValidateSeverityOfName | src/model/Validator.java:26 | any input whose upper-case form is a severity's name, such as `alto`, `Alto` or `ALTO`, yields that severity |
| Validator.ValidateSeverityRoundTrip | src/model/Severity.java:8 | each severity's own name validates to that severity |
| Validator.ParseInt | src/model/Validator.java:41 | a parsed value always lies in the 32-bit range |
| Validator.ParseIntSigned | src/model/Validator.java:41 | an optional sign followed by a non-empty run of digits parses to the signed value of the digits exactly when that value fits in 32 bits |
| Validator.ParseIntNumeral | src/model/Validator.java:41 | an optional sign, any number of leading zeros and the decimal numeral of n parse to n, or to -n after a minus, exactly when that value fits in 32 bits |
| Validator.ParseIntSignedShape | src/model/Validator.java:41 | every string that parses is an optional sign followed by a non-empty run of digits, and its value is the signed value of those digits |
| Validator.ParseIntShape | src/model/Validator.java:41 | every string that parses is an optional sign, some leading zeros and the decimal numeral of a number n, and parses to n or -n; with ParseIntNumeral this characterizes the accepted strings completely |
| Validator.ParseIntString | src/model/Validator.java:41 | every 32-bit integer rendered in decimal parses back to itself |
| Validator.ParseIntOutOfRange | src/model/Validator.java:41 | a decimal number outside the 32-bit range does not parse |
| Validator.ValidateSerialNumber | src/model/Validator.java:39-49 | accepts exactly the inputs that parse as a 32-bit integer greater than zero, returning the parsed value; an input that does not parse fails with the "número entero" message, a parsed value of zero or less with the "entero positivo" message |
| Validator.ValidateSerialAcceptsPositive | src/model/Validator.java:41-45 | every positive 32-bit value written in decimal is accepted as itself |
| Validator.ValidateSerialRejectsNonPositive | src/model/Validator.java:42-43 | zero and negative 32-bit values are rejected with the "entero positivo" message |
| Validator.ValidateSerialRejectsOutOfRange | src/model/Validator.java:46-47 | values outside the 32-bit range are rejected with the "número entero" message |
| Validator.ValidateSerialRejectsNonNumeric | src/model/Validator.java:46-47 | input with a character other than a digit (after an optional leading sign) is rejected with the "número entero" message |
| Validator.ValidateSerialAcceptExamples | src/model/Validator.java:39-45 | "42", "+7", "007" and "+0042" are accepted as 42, 7, 7 and 42 |
| Validator.ValidateSerialRejectExamples | src/model/Validator.java:39-49 | "0" and "-5" are not positive; "", "-" and "abc" are not integers |
| Validator.SerialMessagesDiffer | src/model/Validator.java:43-47 | the two serial-number failure messages are distinct |
| Validator.MatchesLastGroup | src/model/Validator.java:58 | the last state of the matcher accepts exactly the digit strings |
| Validator.MatchesIsVersion | src/model/Validator.java:58 | the automaton accepts a string if and only if it is digits, a dot, digits, a dot, digits, each group non-empty |
| Validator.ValidateVersionFormat | src/model/Validator.java:57-61 | passes if and only if the whole string has the form `\d+\.\d+\.\d+`; otherwise it fails with the version-format message |
| Validator.VersionOfNumbers | src/model/Validator.java:58 | any three non-empty digit groups joined by dots pass |
| Validator.VersionCharacters | src/model/Validator.java:58 | an accepted version holds only digits and dots |
| Validator.VersionExamples | src/model/Validator.java:58-59 | "1.2.3" passes; "1.2", "a.b.c" and "1.2.3.4" fail |
| Store.SelectMembers | src/model/Controller.java:53-61 | a report is in a query's result if and only if it is in the list and satisfies the query |
| Store.SelectEmpty | src/model/Controller.java:53-61 | a query's result is empty if and only if no report in the list satisfies it |
| Store.SelectInOrder | src/model/Controller.java:100-107 | the result is the list's matching elements taken at strictly increasing positions, and those positions are exactly the matching ones |
| Store.SelectAppend | src/model/Controller.java:42-44 | filtering a list with reports appended is filtering the old list, followed by filtering the new reports |
| Store.SeverityOfCode | src/model/Controller.java:70-83 | a severity exists for exactly the codes 1, 2 and 3, and its code is the one given |
| Store.SeverityCodeRoundTrip | src/model/Controller.java:70-83 | 1, 2 and 3 map to ALTO, MEDIO and BAJO and back |
| Store.DedupNoDuplicates | src/model/Controller.java:118-121 | the de-duplicated list has no repeated element |
| Store.DedupSameElements | src/model/Controller.java:115-123 | the de-duplicated list holds exactly the elements of the input |
| Store.DedupFirstSeenOrder | src/model/Controller.java:117-121 | elements of the de-duplicated list appear in the order of their first occurrence in the input |
| Store.DistinctIdsOfReports | src/model/Controller.java:115-124 | the equipment ids have no duplicates and contain an id if and only if some report has it |
| Store.KindLinesRenderSelection | src/model/Controller.java:219-224 | the export body is the rendering of the reports of the requested kind, in list order |
| Store.HeaderLayout | src/model/Controller.java:216 | the title line has 42 characters: `Reporte de `, the kind name at positions 11 to 18, ` generado el ` at positions 19 to 31, and the ISO day, as `LocalDate.toString` prints it, at the end |
| Store.ExportLines | src/model/Controller.java:216-224 | the export holds the header, the separator, and then exactly the rendering of the reports of the kind in list order |
| Store.ExportLinesContents | src/model/Controller.java:216-224 | the export starts with the "Reporte de ... generado el ..." header and the 40-dash separator; every later line renders some report of the kind, and every report of the kind is rendered |
| Store.Timestamp | src/model/Controller.java:208-209 | the start of the day formatted as `yyyy-MM-dd_HH-mm-ss` has 19 characters: the day with its year of era, then `_00-00-00` |
| Store.ExportFileName | src/model/Controller.java:208-210 | a file name has 48 characters: `reports/Reporte_`, the kind name at positions 16 to 23, an underscore, the day with its year of era at positions 25 to 34, the midnight time `_00-00-00` and `.txt` |
| Store.ExportFileNameCollisions | src/model/Controller.java:208-210 | two exports share a file name if and only if they are of the same kind and either on the same day or on the same month and day of the years 0 and 1 |
| Store.Controller.constructor | src/model/Controller.java:32-35 | the store starts with the loaded list, or empty when nothing was loaded |
| Store.Controller.AddReport | src/model/Controller.java:42-45 | the report is appended at the end and every earlier report is kept in place |
| Store.Controller.SearchReportsById | src/model/Controller.java:53-61 | the result is the order-preserving filter of the list on id equality |
| Store.Controller.SearchBySeverityType | src/model/Controller.java:69-92 | a code outside 1..3 gives the empty list; otherwise the result is the order-preserving filter on the severity with that code |
| Store.Controller.SearchSinceDeterminateDate | src/model/Controller.java:100-108 | the result is the order-preserving filter on dates on or after the given date, that date included |
| Store.Controller.GetEquipmentIds | src/model/Controller.java:115-124 | the result is the first-seen de-duplication of the reports' ids |
| Store.Controller.GetEarliestDate | src/model/Controller.java:131-143 | absent if and only if the list is empty; otherwise some report's date that is on or before every report's date |
| Store.Controller.GetLatestDate | src/model/Controller.java:150-162 | absent if and only if the list is empty; otherwise some report's date that is on or after every report's date |
| Store.Controller.GetListReports | src/model/Controller.java:169-171 | returns the stored reports |
| Store.Controller.GenerateReport | src/model/Controller.java:200-228 | returns the export file name and lines for the kind, as defined by the export functions |
| Store.Controller.GenerateHardwareReport | src/model/Controller.java:179-181 | the hardware export |
| Store.Controller.GenerateSoftwareReport | src/model/Controller.java:189-191 | the software export |

## Left out

- Persistence: `loadData` and `saveData` read and write the report list with Java serialization. The constructor takes the decoded list, or `None` when no file could be read. `AddReport` does not write anything.
- File output in `generateReport` (creating the folder, opening the file, printing): `GenerateReport` returns the file name and the lines it would write.
- The clock: `LocalDate.now()` is a `today` parameter. The source reads the clock twice, once for the file name and once for the header, so across midnight the two can differ; the model uses one day for both.
- `validateDate`: it relies on `java.time` parsing with its resolver rules, which is library code outside this model.
- Validator.ParseInt: accepts ASCII digits only, while `Integer.parseInt` also accepts other Unicode decimal digits.
- Validator.ValidateSeverity: upper-cases ASCII letters only; the locale-sensitive `toUpperCase` may also map letters outside ASCII.
- Validator.ValidateVersionFormat: does not model the `null` argument, which the source rejects; Dafny strings are never null. `\d` is taken as an ASCII digit, which is Java's default.
- Null values: Dafny strings, severities and dates are never null. In Java a null text or severity field renders as `null`, and a null report date throws while rendering (src/model/Hardware.java:100, src/model/Software.java:100). The queries throw on a report with a null id (src/model/Controller.java:56) or a null date (lines 103, 138 and 157), and `searchSinceDeterminateDate` also throws on a null argument when the list holds a report; a null id argument just matches nothing. None of these cases is modelled.
- Year 0: the header prints the day with `LocalDate.toString` (`0000-…`), while the file name uses the pattern `yyyy`, the year of era (`0001-…`). Both are modelled as written; from year 1 on the two agree (`Dates.EraDateAgreesWithIso`).
- Dates are limited to years 0000 to 9999. `LocalDate.toString` writes other years with a sign or more digits.
- Getters: modelled as direct reads of the fields. The setters' postconditions then say that a read right after a set returns the value set.
- Store.Controller.GetListReports: returns the sequence by value. The Java method hands out the live list, so a caller could change the store through it.
- The exception classes become the constructors of `ValidationError`. `ReportException` is not used by the core.
- The console menu in `src/ui/Executable.java` is not part of this model.
- `searchBySeverityType` takes an integer code 1..3, as the Java code does. It is not a `Severity` value.
