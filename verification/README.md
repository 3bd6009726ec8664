# Staff dashboard logic of fjorprufa, in Dafny

This project models the logic behind three pages of the staff dashboard of
fjorprufa, a youth-centre attendance site. Each page is a browser script.

- **Tölfræði** (`public/js/pages/staff/tolfraedi.js`), the statistics page.
  - It walks the school year month by month, from September to the current month.
  - It collects the days on which the centre was open with a positive count ("opnanir"), leaving out days in the future, and sorts them by date.
  - It shows the latest count, the sums of the last 5 and last 10 openings, and the changes against the windows before them, as ↑/↓/— indicators.
  - It picks which points of the line chart get a date label.
  - It draws bar charts by school (largest first) and by grade (ascending grade). Each bar has a width relative to the largest count and a rounded percentage of the total.
- **Virkni** (`public/js/pages/staff/virkni.js`), the activity-status panel.
  - It keeps the last accepted reply.
  - It fills the five count cards, defaulting to 0.
  - On a card click it draws that status's counts per school: largest first, widths relative to the first bar, titled with the status label and coloured by a CSS variable. The variable's name replaces only the first `_` of the status with `-`.
- **Nýr nemandi** (`public/js/pages/staff/nyr-nemandi.js`), the new-student form.
  - It validates in a fixed order with early exits: the trimmed name, then the school, then the trimmed custom school for "Aðrir skólar".
  - It builds the `addStudent` request.
  - After a reply it either shows the password and clears the form, or shows an alert.
  - The school drop-down shows the custom-school field, or hides and clears it.

The model has six modules:

- `JsSemantics` (`js_semantics.dfy`) holds the JavaScript built-ins the scripts rely on, each stated as a function with its behaviour proved:
  - `slice` with negative arguments;
  - `trim`;
  - `replace` with a string pattern, which replaces the first match only;
  - rendering of integers in template strings;
  - `parseInt` without a radix: leading blanks and a sign, decimal digits, and hexadecimal after a `0x` prefix, proved to read back the digits `${n}` writes.
- `Sequences` (`sequences.dfy`) holds three generic operations:
  - sorting by an integer key, proved sorted and a permutation of the input;
  - `reduce` sums, which do not depend on order;
  - `Math.max`, which does not depend on order.
- `BarChart` (`bar_chart.dfy`) holds the bar arithmetic shared by the three horizontal charts.
- `Tolfraedi`, `Virkni` and `NyrNemandi` follow the three scripts.
  - The loops of `fetchAllOpenings` are methods proved against the functions `Collected` and `DayOpenings`.
  - `ActivityPage` is a class that holds `activityData` and what it drives.
  - `StudentForm` is a class that holds the form's fields. Its methods are specified by pure functions on a snapshot of the form (`AfterChoosing`, `AfterReply`, `AfterSubmit`), and the script's promises are lemmas about those functions.

Dates are abstract integers ordered as the dates are. The current year, month
and instant are parameters. The backend endpoints (`calendarMonth`,
`statistics`, `activityStatus`, `addStudent`) are parameters too: a function
from month to an optional calendar, and a function from request to reply or
thrown error.

## Model

| member | source | states |
|---|---|---|
| Tolfraedi.NextMonth | public/js/pages/staff/tolfraedi.js:91-95 | the month stays in 1..12 and the next month is exactly one calendar month later (December is followed by January of the next year) |
| Tolfraedi.StartYear | public/js/pages/staff/tolfraedi.js:55-57 | the school year starts in the latest September that is not after the current month, 0 to 11 months before it |
| Tolfraedi.SchoolYearMonths | public/js/pages/staff/tolfraedi.js:56-65 | the months asked for are the consecutive calendar months from September of the start year up to and including the current month, each with a month number in 1..12 |
| Tolfraedi.SchoolYearMonthsEnds | public/js/pages/staff/tolfraedi.js:56-65 | the months visited start at September of the current year (from September on) or of last year, end at the current month inclusive, and number ((currentMonth − 9) mod 12) + 1, between 1 and 12 |
| Tolfraedi.SchoolYearMonthsConsecutive | public/js/pages/staff/tolfraedi.js:65-95 | consecutive visited months are one calendar month apart, December wrapping to January of the next year |
| Tolfraedi.SchoolYearWalk | public/js/pages/staff/tolfraedi.js:56-65 | the school-year months form a one-month-per-step walk from September of the start year to the current month |
| Tolfraedi.WalkPosition | public/js/pages/staff/tolfraedi.js:65 | the `while` condition on year/month holds exactly while months of the walk remain, and then year/month is the next month of the walk |
| Tolfraedi.DayOpenings | public/js/pages/staff/tolfraedi.js:71-84 | every opening pushed for a month has a positive count and a date not after now |
| Tolfraedi.QualifyingDays | public/js/pages/staff/tolfraedi.js:72-76 | the positions listed are exactly the days of the month with a positive count for the centre and a date not after now, in increasing order |
| Tolfraedi.DayOpeningsExact | public/js/pages/staff/tolfraedi.js:71-84 | the openings of a month correspond one to one, in calendar order, to its qualifying days, each carrying that day's date, count and weekday; nothing else is pushed |
| Tolfraedi.DayOpeningsComplete | public/js/pages/staff/tolfraedi.js:71-84 | every day of the month with a positive count for the centre and a date not after now is among the collected openings |
| Tolfraedi.Collected | public/js/pages/staff/tolfraedi.js:62-96 | every opening collected over the months has a positive count and a date not after now |
| Tolfraedi.MonthSources | public/js/pages/staff/tolfraedi.js:66-88 | a month whose request failed or brought no calendar has no sources; otherwise its sources are its qualifying days in calendar order |
| Tolfraedi.Sources | public/js/pages/staff/tolfraedi.js:62-96 | the sources come month after month and day after day, each strictly after the one before, and each lies in one of the walked months |
| Tolfraedi.CollectedExact | public/js/pages/staff/tolfraedi.js:62-96 | the k-th collected opening is the opening of the k-th source: only qualifying days of months whose calendar arrived, each once, in month and then calendar order; a failed month contributes nothing |
| Tolfraedi.CollectedComplete | public/js/pages/staff/tolfraedi.js:62-96 | every qualifying day of every month whose calendar arrived is among the collected openings |
| Tolfraedi.PushDayOpenings | public/js/pages/staff/tolfraedi.js:71-84 | the `forEach` loop appends exactly the month's qualifying days, in calendar order, to what was collected before |
| Tolfraedi.CollectMonths | public/js/pages/staff/tolfraedi.js:62-96 | the month loop terminates and yields the openings of the walked months, month after month |
| Tolfraedi.FetchAllOpenings | public/js/pages/staff/tolfraedi.js:50-102 | the result is the school year's collected openings sorted ascending by date (a permutation of them), each with a positive count and a date not after now |
| Tolfraedi.CalculateOpeningStats | public/js/pages/staff/tolfraedi.js:108-151 | lastCount is the last count (0 with no openings); last5/last10 sums cover the final min(5,n)/min(10,n) openings; prev5/prev10 sums cover positions [max(n−10,0), max(n−5,0)) and [max(n−20,0), max(n−10,0)); dayChange needs two openings, weekChange more than 5, monthChange more than 10, and is 0 otherwise |
| Tolfraedi.StatWindows | public/js/pages/staff/tolfraedi.js:116-121 | the four `slice` windows are the last 5 and last 10 openings and the 5 and 10 before them, clamped at the start; the earlier windows are non-empty exactly when there are more than 5 and more than 10 openings |
| Tolfraedi.TenWindowSplits | public/js/pages/staff/tolfraedi.js:116-126 | with at least ten openings the 10-window sum is the 5-window sum plus the preceding 5-window sum |
| Tolfraedi.ShortPrecedingWindow | public/js/pages/staff/tolfraedi.js:117-151 | with 6 to 10 openings the preceding 5-window is the clamped prefix before the last five, weekChange compares with it, and monthChange is 0 |
| Tolfraedi.SevenOpeningsExample | public/js/pages/staff/tolfraedi.js:117-150 | seven openings with first two summing to 3 and last five to 20 give last5Sum 20, prev5Sum 3, weekChange 17 |
| Tolfraedi.WindowsNest | public/js/pages/staff/tolfraedi.js:116-146 | for positive counts, 0 ≤ latest count ≤ 5-window sum ≤ 10-window sum |
| Tolfraedi.ChangeIndicator | public/js/pages/staff/tolfraedi.js:164-178 | a positive change gets class `stat-change positive`, a negative one `stat-change negative`, zero gets `stat-change` and "—"; a positive change is shown as "↑ " followed by its decimal digits, a negative one as "↓ " followed by the digits of its absolute value; the change is recovered exactly from the text |
| Tolfraedi.ReadUp | public/js/pages/staff/tolfraedi.js:169 | the text "↑ n" reads back as n |
| Tolfraedi.ReadDown | public/js/pages/staff/tolfraedi.js:172 | the text "↓ n" (n the absolute value) reads back as −n |
| Tolfraedi.IndicatorClassDeterminesSign | public/js/pages/staff/tolfraedi.js:168-177 | the three classes are exclusive: each class name occurs exactly for its sign of the change |
| Tolfraedi.LabelStep | public/js/pages/staff/tolfraedi.js:236 | the label step, a tenth of the point count rounded up, is the least k ≥ 1 with n ≤ 10k |
| Tolfraedi.LabelsFrom | public/js/pages/staff/tolfraedi.js:236 | the labelled indices from i on are exactly those that are multiples of the step or the last one, in increasing order |
| Tolfraedi.XLabelIndices | public/js/pages/staff/tolfraedi.js:236 | a point is labelled exactly when its index is a multiple of ceil(n/10) or it is the last point; indices increase |
| Tolfraedi.XLabelsIncludeEnds | public/js/pages/staff/tolfraedi.js:236 | the first and the last point are always labelled |
| Tolfraedi.ChartData | public/js/pages/staff/tolfraedi.js:30-36 | the `_month` counts are drawn whenever present, otherwise the totals |
| Tolfraedi.SchoolChart | public/js/pages/staff/tolfraedi.js:262-291 | "Engin gögn" exactly when no key is visible; otherwise one bar per visible entry |
| Tolfraedi.SchoolChartShows | public/js/pages/staff/tolfraedi.js:262-291 | "Engin gögn" exactly when no key is visible; otherwise each visible entry is drawn once, no `_` key, counts non-increasing, widths against the largest count and percentages of the total |
| Tolfraedi.GradeNumber | public/js/pages/staff/tolfraedi.js:303 | a key of decimal digits sorts as its number; a key starting with a character `parseInt` cannot read sorts as 0 |
| Tolfraedi.GradeChart | public/js/pages/staff/tolfraedi.js:297-326 | "Engin gögn" exactly when no key is visible; otherwise one bar per visible entry |
| Tolfraedi.GradeChartShows | public/js/pages/staff/tolfraedi.js:297-326 | "Engin gögn" exactly when no key is visible; otherwise each visible entry is drawn once in ascending numeric-grade order, widths against the largest count and percentages of the total |
| Tolfraedi.LoadStatistics | public/js/pages/staff/tolfraedi.js:9-43 | nothing is drawn exactly when the school year has no openings; otherwise stats, indicators, opening count and x labels come from the sorted openings, and each bar chart is drawn exactly when its aggregate is present, from its `_month` counts when those exist |
| BarChart.Visible | public/js/pages/staff/tolfraedi.js:266-267 | no kept key starts with `_`, and every other entry is kept with its multiplicity |
| BarChart.SortByCountDesc | public/js/pages/staff/tolfraedi.js:268 | the result is a permutation with non-increasing counts, and its first count is the largest count |
| BarChart.FirstOfDescendingIsMax | public/js/pages/staff/virkni.js:72-73 | in a list sorted by descending count the first count is the maximum |
| BarChart.Width | public/js/pages/staff/tolfraedi.js:279 | width × max = 100 × count when max > 0, 0 otherwise; it lies in [0, 100] for 0 ≤ count ≤ max and is 100 for the largest count |
| BarChart.RoundedPercent | public/js/pages/staff/tolfraedi.js:280 | the percentage is the integer nearest 100·count/total, halves rounded up, when total > 0, else 0; it lies in [0, 100] for 0 ≤ count ≤ total |
| BarChart.ToBars | public/js/pages/staff/tolfraedi.js:278-290 | one bar per entry in order, with that entry's name, count, width and percentage |
| BarChart.BarsOfEntries | public/js/pages/staff/tolfraedi.js:275-290 | bars drawn from any order of the visible entries against their maximum and total show exactly those entries |
| BarChart.WidthsAgainstMax | public/js/pages/staff/tolfraedi.js:310-314 | against the largest count, non-negative counts get widths in [0, 100], and the largest entries get 100 |
| BarChart.PercentsInRange | public/js/pages/staff/tolfraedi.js:276-280 | with non-negative counts each count is at most the total and each percentage lies in [0, 100] |
| Sequences.SortBy | public/js/pages/staff/tolfraedi.js:99 | `sort` with a numeric comparator leaves the list ordered by the key and a permutation of the input |
| Sequences.InsertBy | public/js/pages/staff/tolfraedi.js:99 | inserting into a sorted list keeps it sorted and adds exactly the element |
| Sequences.SumBy | public/js/pages/staff/tolfraedi.js:124-127 | a `reduce` sum of non-negative terms is non-negative |
| Sequences.SumByAppend | public/js/pages/staff/tolfraedi.js:124-127 | the `reduce` sum of a concatenation is the sum of the sums |
| Sequences.SumBySuffixMonotone | public/js/pages/staff/tolfraedi.js:124-127 | with non-negative terms a longer final window sums to at least a shorter one |
| Sequences.SumByPermutation | public/js/pages/staff/tolfraedi.js:276 | a `reduce` sum does not depend on the order of the entries |
| Sequences.MaxBy | public/js/pages/staff/tolfraedi.js:310 | `Math.max` is at least every value and equal to one of them |
| Sequences.MaxByPermutation | public/js/pages/staff/tolfraedi.js:310 | the maximum does not depend on the order of the entries |
| JsSemantics.RelativeIndex | public/js/pages/staff/tolfraedi.js:116-121 | a negative slice argument counts from the end; both kinds are clamped to [0, length] |
| JsSemantics.JsSlice | public/js/pages/staff/tolfraedi.js:116-121 | `slice` returns max(to − from, 0) elements, those of the array from the start position on, with both positions taken from the end when negative and clamped to the array |
| JsSemantics.SliceLast | public/js/pages/staff/tolfraedi.js:116-120 | `slice(-k)` is the last min(k, n) elements |
| JsSemantics.SliceWindow | public/js/pages/staff/tolfraedi.js:117-121 | `slice(-a, -b)` is the positions [max(n−a, 0), max(n−b, 0)) |
| JsSemantics.Trim | public/js/pages/staff/nyr-nemandi.js:36 | `trim` never lengthens and leaves no blank at either end |
| JsSemantics.TrimStart | public/js/pages/staff/nyr-nemandi.js:36 | what is left is a suffix whose dropped prefix is all blanks and whose first character is not blank |
| JsSemantics.TrimEnd | public/js/pages/staff/nyr-nemandi.js:36 | what is left is a prefix whose dropped suffix is all blanks and whose last character is not blank |
| JsSemantics.TrimIsPiece | public/js/pages/staff/nyr-nemandi.js:36 | the trimmed string is a contiguous piece of the input with only blanks around it |
| JsSemantics.TrimEmptyIffBlank | public/js/pages/staff/nyr-nemandi.js:36-43 | a string trims to empty exactly when it is all blanks |
| JsSemantics.TrimIdempotent | public/js/pages/staff/nyr-nemandi.js:52 | trimming twice equals trimming once |
| JsSemantics.IndexOf | public/js/pages/staff/virkni.js:84 | the position of the first occurrence: the character is there and not before |
| JsSemantics.ReplaceFirst | public/js/pages/staff/virkni.js:84 | `replace` with a string pattern changes only the first occurrence, keeps every other character and the length, and leaves a string without the pattern unchanged |
| JsSemantics.ReplaceFirstRemovesOne | public/js/pages/staff/virkni.js:84 | exactly one occurrence of the pattern disappears |
| JsSemantics.NatToString | public/js/pages/staff/tolfraedi.js:169-172 | `${n}` writes non-empty decimal digits with no leading zero |
| JsSemantics.DigitsRoundTrip | public/js/pages/staff/tolfraedi.js:169-172 | the digits written for n denote n |
| JsSemantics.LeadingDigits | public/js/pages/staff/tolfraedi.js:303 | the digits `parseInt` reads are the longest digit prefix |
| JsSemantics.ParseInt | public/js/pages/staff/tolfraedi.js:303 | a string of decimal digits reads as its value; a string whose first character is not a blank, a digit or a sign reads as NaN (None) |
| JsSemantics.ParseIntReadsHex | public/js/pages/staff/tolfraedi.js:303 | without a radix a `0x` prefix switches to hexadecimal: `parseInt("0x10")` is 16 |
| JsSemantics.ParseIntOfNatToString | public/js/pages/staff/tolfraedi.js:303 | `parseInt` reads back the text written for n |
| JsSemantics.ParseDecimalOfNatToString | public/js/pages/staff/tolfraedi.js:169-172 | the decimal digits written for n read back as n |
| Virkni.StatusLabel | public/js/pages/staff/virkni.js:64-76 | the fixed label for the five known statuses, the status itself otherwise |
| Virkni.KnownLabelsAreFixed | public/js/pages/staff/virkni.js:64-70 | the known labels are non-empty, so the fallback is never taken for them |
| Virkni.Title | public/js/pages/staff/virkni.js:76 | the title is the label of a known status, or the status itself, followed by " - eftir skólum" |
| Virkni.ColorVar | public/js/pages/staff/virkni.js:84 | `--color-` followed by the status with only its first `_` turned into `-` |
| Virkni.ColorVarUnderscores | public/js/pages/staff/virkni.js:84 | every later underscore survives: one fewer than in the status |
| Virkni.SchoolBars | public/js/pages/staff/virkni.js:78-79 | one bar per sorted entry with its school, count and width against the maximum |
| Virkni.MaxValue | public/js/pages/staff/virkni.js:73 | 0 for no entries; for entries sorted largest first, the first count is their largest count |
| Virkni.BarsOf | public/js/pages/staff/virkni.js:72-79 | one bar per school of the status |
| Virkni.ShowBreakdown | public/js/pages/staff/virkni.js:54-91 | "Engin gögn" exactly when the status has no per-school counts; otherwise the status title, its colour variable and one bar per school |
| Virkni.ShowBreakdownShows | public/js/pages/staff/virkni.js:58-89 | "Engin gögn" exactly when the status has no per-school data; otherwise the label title, the colour variable, every school once, counts non-increasing, widths against the largest count (0 with no schools) |
| Virkni.BarsOfSchools | public/js/pages/staff/virkni.js:72-89 | the bars show each school of the status once, counts never increasing, each width against the largest count |
| Virkni.BreakdownWidthsInRange | public/js/pages/staff/virkni.js:72-79 | for non-negative counts every width lies in [0, 100] and a positive first bar is full |
| Virkni.BarWidthsInRange | public/js/pages/staff/virkni.js:72-79 | for non-negative counts every width lies in [0, 100] and a positive first bar is full |
| Virkni.CountOrZero | public/js/pages/staff/virkni.js:28-32 | the reply's count of a status, 0 when it is missing |
| Virkni.CardCounts | public/js/pages/staff/virkni.js:28-32 | exactly the five cards, each with its status's count or 0 |
| Virkni.CardCountsDefault | public/js/pages/staff/virkni.js:28-32 | a card shows 0 exactly when the count is missing or zero; counts of other keys do not affect the cards |
| Virkni.ActivityPage.LoadActivityStatus | public/js/pages/staff/virkni.js:8-44 | no reply or an error reply changes nothing; any other reply becomes `activityData` and its counts go on the cards |
| Virkni.ActivityPage.ShowActivityBreakdown | public/js/pages/staff/virkni.js:54-91 | nothing happens before a reply was accepted; otherwise the breakdown of the status is drawn |
| Virkni.ActivityPage.SelectCard | public/js/pages/staff/virkni.js:36-43 | a card click draws its breakdown and makes it the one selected card |
| NyrNemandi.ProblemAlert | public/js/pages/staff/nyr-nemandi.js:40-56 | every refusal shows a non-empty alert |
| NyrNemandi.Validate | public/js/pages/staff/nyr-nemandi.js:36-57 | refused for the name exactly when it is blank; for the school exactly when the name is fine and no school is chosen; for the custom school exactly when "Aðrir skólar" is chosen and its name is blank; otherwise the request has the trimmed name, the chosen school or the trimmed custom name (non-empty), the grade and the centre |
| NyrNemandi.RequestIsTrimmed | public/js/pages/staff/nyr-nemandi.js:36-52 | the name sent (and a custom school sent) is already trimmed |
| NyrNemandi.DisplayedPassword | public/js/pages/staff/nyr-nemandi.js:72 | `response.password` if non-empty, else `response.student.password` if non-empty, else "----"; never empty |
| NyrNemandi.ErrorAlert | public/js/pages/staff/nyr-nemandi.js:92-96 | the reply's message when non-empty, else the default error text |
| NyrNemandi.AfterChoosing | public/js/pages/staff/nyr-nemandi.js:14-21 | "Aðrir skólar" shows the custom-school group and keeps its text; any other choice hides it and empties it; afterwards the field is shown exactly while "Aðrir skólar" is chosen, whatever the form was; nothing else changes |
| NyrNemandi.AfterReply | public/js/pages/staff/nyr-nemandi.js:67-97 | the reply keeps the custom-school field rule and never changes the grade |
| NyrNemandi.ReplyEffects | public/js/pages/staff/nyr-nemandi.js:67-97 | a success reply shows the password and clears name, school and custom school, keeping grade and alerts, after which a submit made after the reply is refused for its name; another reply, or a thrown request, only adds its alert |
| NyrNemandi.AfterSubmit | public/js/pages/staff/nyr-nemandi.js:27-98 | submitting keeps the custom-school field rule and never changes the grade |
| NyrNemandi.ProblemAlerts | public/js/pages/staff/nyr-nemandi.js:40-56 | the alert texts of the name, school and custom-school refusals |
| NyrNemandi.Refused | public/js/pages/staff/nyr-nemandi.js:40-57 | a refused form sends nothing and only gains the alert of its refusal |
| NyrNemandi.BlankNameRefused | public/js/pages/staff/nyr-nemandi.js:36-43 | a blank name sends nothing and adds the name alert, whatever else the form holds |
| NyrNemandi.NoSchoolRefused | public/js/pages/staff/nyr-nemandi.js:45-48 | with a name but no school, nothing is sent and the school alert is added |
| NyrNemandi.NoCustomSchoolRefused | public/js/pages/staff/nyr-nemandi.js:50-56 | with a name and "Aðrir skólar" but a blank custom school, nothing is sent and the custom-school alert is added |
| NyrNemandi.PassingFormSent | public/js/pages/staff/nyr-nemandi.js:59-65 | a form that passes sends a request with the trimmed name, and the outcome of that request decides the new form |
| NyrNemandi.StudentForm.EnterName | public/js/pages/staff/nyr-nemandi.js:28 | an input event, not a script function: typing into the name field (read at `newStudentName`) changes only the name and keeps the custom-school field rule |
| NyrNemandi.StudentForm.EnterCustomSchool | public/js/pages/staff/nyr-nemandi.js:30 | an input event, not a script function: typing into the shown custom-school field (read at `customSchoolName`) changes only that text and keeps the field rule |
| NyrNemandi.StudentForm.ChooseGrade | public/js/pages/staff/nyr-nemandi.js:31 | an input event, not a script function: choosing a grade (read at `newStudentGrade`) changes only the grade and keeps the field rule |
| NyrNemandi.StudentForm.ChooseSchool | public/js/pages/staff/nyr-nemandi.js:14-21 | the form after a drop-down change is the one `AfterChoosing` describes |
| NyrNemandi.StudentForm.HandleReply | public/js/pages/staff/nyr-nemandi.js:67-97 | the form after a reply or a thrown request is the one `AfterReply` describes |
| NyrNemandi.StudentForm.AddNewStudent | public/js/pages/staff/nyr-nemandi.js:27-98 | the request sent is the validated one, or none for a refused form, and the new form is the one `AfterSubmit` describes |

## Left out

- Network and I/O: `apiGet`, `apiPost`, `fetchStatistics` and the endpoints are parameters. A month whose request fails or has no `calendar` contributes no openings. The `try`/`catch` logging, `console` output and `alert` dialogs are not modelled, except that the alert text is recorded.
- DOM plumbing is not modelled: element lookups, including missing elements (`if (!el) return`), markup strings, `escapeHtml`, and the DOM loop that removes the `selected` class from the other cards; its effect, one selected card, is modelled by `ActivityPage.selected`. The model records the values written.
- Repeated `loadActivityStatus` calls register their click handlers again. The model has one handler per card.
- SVG geometry of the line chart (`renderOpeningsLineChart`, point coordinates and paths) is left out. Only the x-label selection and the opening count are kept.
- Clocks and dates: `new Date()`, date parsing and `formatShortDate` are left out. Dates are abstract ordered integers and the current year, month and instant are parameters.
- `setTimeout` hiding the success box after 10 seconds, and the `loadStudents` reload.
- BarChart.Width: widths are exact reals, so floating-point rounding of `(count / max) * 100` is not captured.
- BarChart.RoundedPercent: `Math.round` is computed exactly on rationals, so floating-point error before rounding is not captured.
- Numbers: counts, sums and changes are unbounded integers. JavaScript numbers are doubles, exact only up to 2^53, and `${n}` writes exponent notation from 10^21 on; neither limit is modelled, so very large counts are not captured.
- JsSemantics.ParseInt: the result is an exact integer, so the rounding of long digit strings to a double is not captured; an explicit radix argument is not modelled because the scripts never pass one.
- NyrNemandi.StudentForm.AddNewStudent: the submit and its reply are one atomic step, so a second submit or edits typed while `apiPost` is pending are not captured; in the script such a submit reads the still-filled form and sends a duplicate request, and the success branch wipes the edits.
- Virkni.ActivityPage.LoadActivityStatus: each call is one atomic step, so overlapping calls whose replies arrive out of order (the last reply to arrive wins) are not captured.
- Sequences.SortBy: the engine's `sort` is modelled as a stable insertion sort, and only sortedness and permutation are proved. The relative order of equal keys is not part of any contract.
- Tolfraedi.GradeNumber: a grade key without leading digits (`parseInt` gives NaN) sorts as 0. The script's comparator then returns NaN, and the order is up to the engine.
- Virkni.StatusLabel: `statusLabels[status]` on an object literal also finds inherited properties such as `constructor`. The model looks up only the five own keys.
- The source comment at `tolfraedi.js:29` and `:35` says the totals are used rather than `_month`. The code uses `_month` whenever it is present, and the model follows the code.
- The form does not check that a grade was chosen; the grade is sent as selected, possibly empty. The model follows the code.
