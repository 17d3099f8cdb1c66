# Worksheet parser model

A Dafny model of the text parser behind the store-order worksheet viewer, in
`src/components/WorksheetParser.tsx`. The parser has two entry points:

- `parseWorksheetData` reads a worksheet report line by line and builds a
  hierarchy: departments, their sub-departments, and the items in each. It
  skips page furniture, matches department headers (`Dept: 010 GROCERY
  Sub-Dept: 020 CANNED GOODS`) and item rows (`123456 CANNED BEANS U M 12 4`).
  It finds or creates the department and sub-department a header names, and
  appends each item to the current sub-department. It then sorts departments
  and sub-departments by their 3-digit codes.
- `parseWorksheetHeader` reads the same text for seven header fields taken
  from the Store, DC and Date lines.

The model is pure: immutable datatypes and functions over `string`
(`seq<char>`).

Each regular expression is modelled in the order a backtracking JavaScript
engine tries it, using the combinators in `Backtrack`:

- leftmost start;
- `\s+` and greedy groups tried longest first;
- lazy groups tried shortest first.

Each matcher comes with a declarative "layout" predicate (the language of
the pattern) and is proved sound and complete against it. Its contract also
says which match it picks. For the header, Store, Date and DC patterns this is
the leftmost occurrence. For the Store, Date and DC patterns it is also the one
layout the engine takes at that position:
- the `\s+` takes the whole whitespace run;
- the lazy Store location stops at the first `Order Number:`, and the greedy Date `.*` at the last `Time:`;
- the trailing groups take their whole runs. The item row is anchored at both ends, so the choice
is among parses of the whole line: the description starts as late as any
parse allows (the `\s+` before it is greedy), and for that start it ends as
early as any parse allows (the lazy `.+?`).

`\s` and `trim` use the full ECMAScript whitespace set. `.` refuses the four
line terminators and `[^]` accepts everything.

Modules:

- `Wrappers`: `Option`.
- `Text`:
  - character classes, whitespace runs and `trim`;
  - `includes` / `startsWith`;
  - `split('\n')` and `split(/\s+/)`;
  - `padStart` and `parseInt` on digit strings.
- `Backtrack`: the search orders of the regex engine.
- `Order`: `localeCompare` on digit codes as lexicographic order.
- `Keyed`: find-by-key, insertion sort by key, distinct and sorted keys.
- `DeptHeader`, `ItemRow`, `Icons`: the header regex, the item regex and the icon list of `parseWorksheetData`.
- `Worksheet`: the records, the line classifier, the parse state and loop, the sort and `ParseWorksheetData`.
- `WorksheetFacts`, `WorksheetItems`: properties of whole parses; `WorksheetItems` states where every item ends up against a reference reading of the report.
- `HeaderPatterns`, `WorksheetHeader`: the three regexes of `parseWorksheetHeader`, the field fold and its properties.
- `Scenarios`, `BeanScenario`, `HeaderScenarios`: concrete reports run through the model.

## Model

| member | source | states |
|---|---|---|
| Worksheet.BuildItem | src/components/WorksheetParser.tsx:95-105 | The item built from a matched row has a 6-digit SKU that ends with the captured digits, is padded with `'0'` and has the same numeric value. Its quantity and carton quantity are the captured numbers, so they are below 1000 and 10000. Its description is the captured description, trimmed. Its icons are `[""]` when the icon group is absent. Otherwise they are one or more single icon letters, and together they spell the group's letters in order. |
| Worksheet.PaddedSku | src/components/WorksheetParser.tsx:97 | `padStart(6, '0')` of a 3–6 digit string is 6 digits long: zeros, then the original digits, with the same decimal value. |
| Worksheet.Classify | src/components/WorksheetParser.tsx:34-112 | A line is noise exactly when its trimmed text is empty or holds a marker. It is a (good or bad) department header exactly when it is not noise and starts with `Dept:`. A good header carries the groups the header match reports, with two 3-digit codes. A bad header is one in which the header pattern occurs nowhere. An item line's item is valid. |
| Worksheet.ClassifyMatches | src/components/WorksheetParser.tsx:90-105 | A line that is neither noise nor a `Dept:` line is an item line exactly when the item pattern admits a parse of it. The item is built from the groups of the parse the search finds. |
| Worksheet.Enter | src/components/WorksheetParser.tsx:55-85 | A header keeps the hierarchy well formed and only extends it, without adding items. The cursor then points at a department and sub-department with the header's codes. An unknown department code is appended as a new department; a known one adds no department. |
| Worksheet.AddItem | src/components/WorksheetParser.tsx:107 | The item is appended to the current sub-department's list, and nothing else changes. |
| Worksheet.Step | src/components/WorksheetParser.tsx:33-113 | One loop iteration keeps the hierarchy well formed and only extends it. |
| Worksheet.StepEffect | src/components/WorksheetParser.tsx:37-112 | A header moves the cursor and adds no item. An item line under a cursor appends exactly that item there. Every other line, including an item line before any header, leaves the state unchanged. |
| Worksheet.RunFrom | src/components/WorksheetParser.tsx:33-114 | The loop keeps the invariant: codes are distinct 3-digit codes, each department has a sub-department, names are trimmed and items are valid. Each state extends the one before it. |
| Worksheet.SortSubs | src/components/WorksheetParser.tsx:123-125 | Sorting a department's sub-departments permutes them into code order, and it leaves the department's code, name and flag alone. |
| Worksheet.Finalize | src/components/WorksheetParser.tsx:117-125 | The result is departments in code order, each with sorted sub-departments. It is exactly the input departments (each with its sub-departments sorted), with none added or lost. |
| Worksheet.ParseWorksheetData | src/components/WorksheetParser.tsx:22-130 | The output has distinct department codes, and distinct sub-department codes within each department. It is sorted at both levels, and every item is valid. |
| WorksheetFacts.NoHeaderKeepsStart | src/components/WorksheetParser.tsx:91 | Without a matched header, no line changes the empty start state, so item rows seen first are dropped. |
| WorksheetFacts.HeaderlessPrefixIgnored | src/components/WorksheetParser.tsx:91 | Lines before the first header have no effect on the parse. |
| WorksheetFacts.NoHeaderNoDepartments | src/components/WorksheetParser.tsx:51-54 | A report with no matching header line yields no departments. |
| WorksheetFacts.NoiseOnlyNoDepartments | src/components/WorksheetParser.tsx:37-47 | A report made only of noise lines yields no departments. |
| WorksheetFacts.EmptyReport | src/components/WorksheetParser.tsx:29-47 | The empty report yields no departments. |
| WorksheetFacts.DeptLineAddsNoItem | src/components/WorksheetParser.tsx:51-88 | A line starting with `Dept:` never adds an item, whether or not the header pattern matches. |
| WorksheetFacts.ItemsInLineOrder | src/components/WorksheetParser.tsx:91-107 | Between headers, the current sub-department gains exactly the items of the item lines, in line order, and nothing else changes. |
| WorksheetFacts.ItemsAppendedCompose | src/components/WorksheetParser.tsx:107 | Two appends at the same cursor are one append of both lists. |
| WorksheetFacts.StepPairs | src/components/WorksheetParser.tsx:58-85 | The (department, sub-department) code pairs after a line are those before it plus the pair its header names. |
| WorksheetFacts.RunPairs | src/components/WorksheetParser.tsx:33-114 | The code pairs after the loop are those before it plus every pair a header line names. |
| WorksheetFacts.FinalizePairs | src/components/WorksheetParser.tsx:117-125 | Sorting neither adds nor loses a code pair. |
| WorksheetFacts.ParsePairs | src/components/WorksheetParser.tsx:22-130 | The code pairs in the output are exactly the pairs named by the report's matched headers. |
| WorksheetFacts.EnterPairs | src/components/WorksheetParser.tsx:58-85 | A header adds exactly its own code pair. |
| WorksheetFacts.EnterNames | src/components/WorksheetParser.tsx:58-79 | A new department takes the header's trimmed name, and so does a new sub-department. |
| WorksheetFacts.FirstDeptNameWins | src/components/WorksheetParser.tsx:58-68 | The output department for a code carries the trimmed name from the first header that named that code. |
| WorksheetFacts.FirstSubNameWins | src/components/WorksheetParser.tsx:70-85 | The output sub-department for a code pair carries the trimmed name from the first header that named that pair. |
| WorksheetItems.ParseItems | src/components/WorksheetParser.tsx:22-130 | Each output sub-department holds exactly the items of the item rows that sit under headers naming its (department, sub-department) pair, in report order. Rows before the first header belong to no pair. Rows under repeated headers for one pair are merged. The reference reads the lines alone and never looks at a parse state. |
| WorksheetItems.UnnamedPairEmpty | src/components/WorksheetParser.tsx:90-107 | A pair that no header names collects no item in the reference. |
| WorksheetItems.RunItems | src/components/WorksheetParser.tsx:33-114 | Over any run of lines, the items under each pair grow by exactly the reference's items for that pair. The reference starts from the pair the cursor points at. |
| WorksheetItems.StepItems | src/components/WorksheetParser.tsx:51-107 | One line adds to a pair's items only when it is an item line and the cursor names that pair, and then it adds exactly that item. |
| WorksheetItems.StepCursorPair | src/components/WorksheetParser.tsx:55-85 | After a matched header the cursor names the header's pair. After any other line it names the same pair as before. |
| WorksheetItems.NoItemsAddedSameItems | src/components/WorksheetParser.tsx:58-85 | Finding or creating a department and sub-department changes no pair's items. |
| WorksheetItems.AppendedSameItems | src/components/WorksheetParser.tsx:107 | Pushing onto the current sub-department adds to the cursor's pair and to no other. |
| WorksheetItems.FinalizeItemsAt | src/components/WorksheetParser.tsx:117-125 | Sorting moves whole sub-departments: each one in the result holds what its pair held before. |
| WorksheetFacts.RunFromAppend | src/components/WorksheetParser.tsx:33 | Running the loop over `a + b` is running it over `a`, then over `b`. |
| WorksheetFacts.Decompose | src/components/WorksheetParser.tsx:33 | The parse of any line is applied to the state left by the lines before it. |
| DeptHeader.MatchDeptHeader | src/components/WorksheetParser.tsx:53 | `match` fails exactly when no position matches the header pattern. Otherwise it returns the captures of a match at the leftmost matching position, and both codes are 3 digits. |
| DeptHeader.LeftmostOccurrence | src/components/WorksheetParser.tsx:53 | Scanning start positions in order finds the leftmost match, or proves there is none. |
| DeptHeader.MatchDeptAtSound | src/components/WorksheetParser.tsx:53 | What the matcher finds at a position is a layout of the pattern. |
| DeptHeader.MatchDeptAtComplete | src/components/WorksheetParser.tsx:53 | Any layout of the pattern at a position is found there. |
| DeptHeader.CapturedCodes | src/components/WorksheetParser.tsx:53 | Both captured codes of a layout are 3 digits. |
| ItemRow.MatchItemRow | src/components/WorksheetParser.tsx:92 | `match` fails exactly when the line has no layout of the item pattern. A success has 3–6 SKU digits, a non-empty description, an icon run when the icon group took part, 1–3 quantity digits and 1–4 carton digits. |
| ItemRow.MatchRowSpec | src/components/WorksheetParser.tsx:92 | The search finds a parse exactly when the row has one. The parse it finds has the longest SKU-to-description whitespace any parse has, so its description starts no earlier than any other parse's. Among parses whose description starts there, none has an earlier tail. |
| ItemRow.TailAtExact | src/components/WorksheetParser.tsx:92 | The deterministic reading of a row's tail (icons, quantity, cartons and trailer) succeeds exactly on the layouts of the tail grammar. |
| ItemRow.IconChainComplete | src/components/WorksheetParser.tsx:92 | An icon run followed by whitespace and a digit is taken whole by the icon group. |
| ItemRow.RowCapturesValid | src/components/WorksheetParser.tsx:92 | Every layout's captures have the digit counts and icon shape the pattern allows. |
| Icons.IconsOf | src/components/WorksheetParser.tsx:95 | Every icon is a substring of `UMTPRO`. An absent icon group gives `[""]`. |
| Icons.IconsOfRun | src/components/WorksheetParser.tsx:95 | A captured icon run becomes its letters, one per entry and in order. |
| Icons.SplitIconRun | src/components/WorksheetParser.tsx:95 | Splitting an icon run on whitespace gives single icon letters, which the `UMTPRO` filter keeps in full. |
| Icons.IconsValid | src/components/WorksheetParser.tsx:95 | An item's icons are `[""]` or a non-empty list of single icon letters. |
| Keyed.FindBy | src/components/WorksheetParser.tsx:78-84 | Finds the first record with the key, or reports that none has it. |
| Keyed.SortBy | src/components/WorksheetParser.tsx:120-124 | The result is a permutation sorted by key that keeps keys distinct. |
| Keyed.InsertBy | src/components/WorksheetParser.tsx:120-124 | Inserting into a sorted sequence adds one occurrence of the element and keeps the sequence sorted. |
| Order.LexLeIsNumeric | src/components/WorksheetParser.tsx:120-124 | On digit strings of equal width, string order is numeric order. |
| Order.LexLeTotal | src/components/WorksheetParser.tsx:120-124 | The comparison is total. |
| Order.LexLeTransitive | src/components/WorksheetParser.tsx:120-124 | The comparison is transitive. |
| Order.LexLeAntisymmetric | src/components/WorksheetParser.tsx:120-124 | The comparison is antisymmetric. |
| Text.Trim | src/components/WorksheetParser.tsx:34 | `trim` returns the slice left after removing whitespace from both ends, and the result has no whitespace at either end. |
| Text.TrimIdempotent | src/components/WorksheetParser.tsx:34 | Trimming twice is trimming once. |
| Text.ContainsIff | src/components/WorksheetParser.tsx:38-46 | `includes` holds exactly when the pattern occurs at some index. |
| Text.Split | src/components/WorksheetParser.tsx:29 | `split('\n')` gives at least one piece. No piece holds a newline, and joining the pieces with newlines gives the text back. |
| Text.SplitOfJoin | src/components/WorksheetParser.tsx:29 | Splitting the join of newline-free pieces gives the pieces back. |
| Text.PadStart | src/components/WorksheetParser.tsx:97 | `padStart` keeps the string at the end and fills the front up to the width. |
| Text.DecimalValueLeadingZeros | src/components/WorksheetParser.tsx:96-97 | Leading zeros do not change `parseInt`. |
| Backtrack.FirstFrom | src/components/WorksheetParser.tsx:53 | The first position at which a sub-match succeeds, with none before it; or none at all. |
| Backtrack.LastFrom | src/components/WorksheetParser.tsx:159 | The last position at which a sub-match succeeds, with none after it: the order of a greedy quantifier. |
| Backtrack.WsPlusThen | src/components/WorksheetParser.tsx:92 | `\s+` followed by a sub-match takes the longest whitespace stretch after which the rest matches. |
| HeaderPatterns.MatchStore | src/components/WorksheetParser.tsx:146 | The store pattern fails exactly when no position has its layout. Otherwise it gives the captures of the leftmost layout the engine chooses: the whole whitespace run before the location, the location ending at the first `Order Number:` followed by a number, the whole digit run as order number. Store and order numbers are non-empty digit strings. |
| HeaderPatterns.MatchDc | src/components/WorksheetParser.tsx:153 | The DC pattern fails exactly when no position has its layout. Otherwise it gives a leftmost layout: a digit number, then a name that runs to the end of the line and does not start with whitespace. |
| HeaderPatterns.MatchDate | src/components/WorksheetParser.tsx:159 | The date pattern fails exactly when no position has its layout. Otherwise it gives the captures of the leftmost layout the engine chooses: the whole whitespace run after the date, the last reachable `Time:` followed by a time, the whole run of digits and `:` as time. The date is a non-empty run of digits and `/`, the time of digits and `:`. |
| HeaderPatterns.StoreChoiceUnique | src/components/WorksheetParser.tsx:146 | At one position only one layout meets the engine's choice, so the three store captures are fixed by the line. |
| HeaderPatterns.DateChoiceUnique | src/components/WorksheetParser.tsx:159 | At one position only one layout meets the engine's choice, so the date and time captures are fixed by the line. |
| HeaderPatterns.MarkedRunExact | src/components/WorksheetParser.tsx:146-159 | `marker\s*(X+)` for a class X without whitespace finds exactly the maximal run after the marker. |
| WorksheetHeader.HeaderStep | src/components/WorksheetParser.tsx:144-164 | A line is checked against one marker only, in the order Store, DC, Date. It changes only that marker's fields. A failed match or no marker changes nothing, and the location stays trimmed. |
| WorksheetHeader.ParseWorksheetHeader | src/components/WorksheetParser.tsx:132-168 | The location field is always trimmed. |
| WorksheetHeader.LastReport | src/components/WorksheetParser.tsx:144-165 | The last line that reports a group of fields, or nothing exactly when no line reports it. |
| WorksheetHeader.StepIsOverlay | src/components/WorksheetParser.tsx:145-164 | One iteration overlays what the line reports on the fields. |
| WorksheetHeader.HeaderFoldReported | src/components/WorksheetParser.tsx:144-165 | The loop's result equals the independent reading where each group of fields comes from the last line that reports it. |
| WorksheetHeader.ParseHeaderReported | src/components/WorksheetParser.tsx:132-168 | `parseWorksheetHeader` is that reading, starting from seven empty fields. |
| WorksheetHeader.HeaderDefaults | src/components/WorksheetParser.tsx:134-142 | The store number, DC number and date are `""` exactly when no line reports them. |
| WorksheetHeader.NoMarkersBlank | src/components/WorksheetParser.tsx:134-164 | With no marker in any line, all seven fields stay `""`. |
| WorksheetHeader.LastStoreLineWins | src/components/WorksheetParser.tsx:145-151 | The last matching store line sets the store number and the order number, and its location trimmed. |
| WorksheetHeader.LastDcLineWins | src/components/WorksheetParser.tsx:152-157 | The last matching DC line sets the DC number and its name untrimmed. |
| WorksheetHeader.LastDateLineWins | src/components/WorksheetParser.tsx:158-163 | The last matching date line sets the date and time. |
| Scenarios.RowClassified | src/components/WorksheetParser.tsx:92-105 | `123 WIDGET 5 2` becomes the item `000123`, `WIDGET`, quantity 5, icons `[""]`, 2 cartons. |
| Scenarios.HeaderClassified | src/components/WorksheetParser.tsx:53-55 | `Dept: 010 GROCERY Sub-Dept: 020 CANNED GOODS` captures `010`, `GROCERY ` (untrimmed), `020` and `CANNED GOODS`. |
| Scenarios.ReportParsed | src/components/WorksheetParser.tsx:22-130 | The report of that header line followed by that row parses to one department `010 GROCERY`, holding one sub-department `020 CANNED GOODS`, holding the one item. |
| BeanScenario.BeanClassified | src/components/WorksheetParser.tsx:92-105 | `123456 CANNED BEANS U M 12 4` becomes the item `123456`, `CANNED BEANS`, quantity 12, icons `["U", "M"]`, 4 cartons. The lazy description stops before the icons, not at the space inside the name. |
| BeanScenario.BeanReportParsed | src/components/WorksheetParser.tsx:22-130 | The header line above followed by that row parses to one department `010 GROCERY`, holding one sub-department `020 CANNED GOODS`, holding that item. |
| Scenarios.ShortSkuPadded | src/components/WorksheetParser.tsx:97 | The SKU `123` is padded to `000123`. |
| HeaderScenarios.StoreLineSetsStoreFields | src/components/WorksheetParser.tsx:145-151 | `Store Number: 42  MAIN ST  Order Number: 7` sets store `42`, location `MAIN ST` (trimmed) and order `7`, and nothing else. |
| HeaderScenarios.DcNameKeepsTrailingSpaces | src/components/WorksheetParser.tsx:153-156 | `DC#: 12 ACME  ` gives DC number `12` and name `ACME  `, trailing spaces kept. |
| HeaderScenarios.DateSampleCaptures | src/components/WorksheetParser.tsx:159 | `Date: 01/02/24 X Time: 10:30` gives date `01/02/24` and time `10:30`, with the text between skipped. |
| HeaderScenarios.WholeHeaderParsed | src/components/WorksheetParser.tsx:132-168 | The store, DC and date lines joined by newlines give store `42`, location `MAIN ST`, order `7`, DC `12`, name `ACME  `, date `01/02/24` and time `10:30`. |

## Left out

- The `console.log` diagnostics, the `totalCases` counter and the `/^\d{6}/` branch that only logs (lines 26, 31, 52, 108-111, 127-128). None affects the returned value.
- The React pages and `main.tsx`: rendering and UI state only.
- `isExpanded`: always `false` at parse time; it is kept in the record and set to `false`.
- Map identity: the JavaScript mutates department and sub-department objects through shared references. The model keeps departments in a sequence in first-insertion order (the `Map`'s iteration order) and the current department and sub-department as indices. The observable result is the same.
- `localeCompare`: modelled as code-point order. The compared codes are always three ASCII digits, so locale rules cannot change the result.
- `SZ|DO|[A-Z]{2}` in the item pattern is written as `[A-Z]{2}`. It is the same language, and the group's capture is never read.
- `sort` stability is not modelled. Keys are distinct at both levels, so every correct sort gives the same order.
- DeptHeader.MatchDeptHeader: states the leftmost matching position and that the captures form a layout there. It does not state which of several layouts at that position the engine picks (the longest whitespace run, then the first `Sub-Dept:` after which the rest matches).
- Strings are sequences of Unicode code points; JavaScript strings are sequences of UTF-16 code units. The parser cannot tell the difference: every character class it uses (`\s`, `\d`, `[A-Z]`, `[UMTPRO]`, `trim`'s whitespace) lies in the Basic Multilingual Plane, and `.` and `[^]` accept each half of a surrogate pair just as they accept the whole character.
