# A verified model of the gateway's decision logic

The gateway lets agents call upstream services through named operations. This
project models the parts of it that decide something by an algorithm of their
own, and proves what they are for:

- **Table scope** (`SqlTree`, `TableScope`, `TableAccess`, `AllowList`): the walk over a parsed
  SQL statement that collects table references under CTE scoping, and the
  allow-list check, entry by entry. The main result is semantic: exactly when an accepted
  statement cannot tell apart two databases that agree on the admitted tables.
- **Working calendar** (`Gregorian`, `WorkCalendar`, `HolidayDates`): Easter against
  the ecclesiastical computus, the public holidays of the Polish act on non-working
  days told from the date, working days and holidays of a range.
- **Line patch** (`LineDiff`, `YamlPatch`, `Words`, `LineEnds`): the diff table and
  walk, the patch that carries a structural edit over to the original text, the words
  by which lines are matched, and the line ends of the result.
- **Response shaping** (`ResponseShape`, `ShapeInPlace`): the projection algebra on
  values, and the same functions on shared, mutable maps.
- **Suggestions** (`EditDistance`, `Sorting`, `ClosestOps`): the edit distance and the
  three closest operations an agent may call.
- **Secrets** (`Redaction`, `Secrets`): the resolver's cache, the taint registry and
  the outbound redaction.
- **JQL scope** (`JqlScope`, `JqlResplit`, `JqlMeaning`): the ORDER BY split and the
  project-scope rewrite, with a lexer and a precedence parser as the reference
  for what a query means.
- **Paths** (`PathTemplate`, `PathExpansion`, `PathValues`, `PathDots`): path-value
  checks, the template expansion, how values arrive in it, and the dot segments it
  can have.
- **Jobs** (`JobStore`, `JobRuns`): the job store and its interleaved runs.
- **Request pipeline** (`Validation`, `ParamRules`, `Pipeline`, `PipelineRuns`, `CallScope`):
  parameter validation, constraints and defaults, the decision of one request,
  requests interleaved with reloads, and what the JQL of a call means.
- **Worklog report** (`WorklogFetch`, `WorklogReport`): paging, chunking, periods,
  totals and the working-hours norm, in whole seconds.

Code that updates state in place is modelled by methods and classes proved
against specification functions; the lemmas are about those functions. Map
iteration order is an arbitrary choice. Each region the original runs under a
lock is one step. Clocks, generated ids, upstream replies, regular expressions,
digests and tunnel states are inputs.

Where code and comment disagree the model follows the code: a raw single-segment
path value may be empty or ".", and then the expanded path can have a dot segment;
`PathDots` says exactly when. A patched file keeps the line ends of the original but
for one case: a last line without a line end that another line now follows gets a bare
newline; `LineEnds` says exactly when.

`dafny verify dfyconfig.toml` checks the whole project.

## Model

| member | source | states |
|---|---|---|
| `TableAccess.NonInterference` | internal/connectors/postgres/connector.go:282-332 | A statement the check accepts is non-interfering if and only if the allow-list admits every lexically free table reference, folded: then any two databases that agree on the admitted tables give the same result over every domain, under lexically scoped evaluation, for any interpretation of the SQL operators and any number of iterations of a recursive CTE; otherwise two databases and an interpretation tell a difference |
| `TableAccess.AcceptedIsNonInterfering` | internal/connectors/postgres/connector.go:282-332 | Every accepted statement in which no reference equals a CTE in scope up to letter case only is non-interfering; in particular every one whose names are all in lower case, as the parser leaves unquoted ones |
| `TableAccess.FreeIsWalked` | internal/connectors/postgres/walk.go:109-164 | Then the walker records every lexically free reference, whichever node its WITH clause sits on |
| `TableAccess.LowerCaseIsExact` | internal/connectors/postgres/walk.go:110-114 | In a statement in lower case no two names differ by letter case only |
| `TableAccess.FreeRefShows` | internal/connectors/postgres/walk.go:109-164 | Every lexically free reference can show in the result |
| `TableAccess.ShadowedInterferes` | internal/connectors/postgres/walk.go:109-164 | The input that interferes: a quoted CTE "T" makes the walker take table t for the CTE, so under an empty allow-list a statement that reads t is accepted |
| `TableAccess.WalkRecordsFreeRefs` | internal/connectors/postgres/walk.go:109-164 | The walker's references are exactly the lexically free table references, folded, in order, if and only if no reference equals a CTE in scope up to letter case only; earlier siblings are in scope, or all under RECURSIVE |
| `TableAccess.WalkSucceeds` | internal/connectors/postgres/walk.go:63-107 | A walk reports no error if and only if everything below lies within depth 500 and no denied function is called anywhere |
| `TableAccess.CheckTableScope` | internal/connectors/postgres/connector.go:282-303 | Accepts if and only if the text parses and every statement walks cleanly with references the allow-list admits only (what it admits: the AllowList rows); a refusal names the first failing statement's error, or the first reference that is not admitted |
| `TableAccess.CollectRefs` | internal/connectors/postgres/connector.go:287-292 | The loop over the statements collects the references of all of them in order, or stops at the first failing one with its first error |
| `TableAccess.StatementRefs` | internal/connectors/postgres/walk.go:50-55 | A reference is collected exactly when some statement of the text has it |
| `AllowList.ListIsUnion` | internal/connectors/postgres/connector.go:305-332 | An allow-list admits exactly what its entries admit, each on its own |
| `AllowList.EmptyEntry` | internal/connectors/postgres/connector.go:309-310 | An entry of white space only admits nothing |
| `AllowList.StarEntry` | internal/connectors/postgres/connector.go:311-312 | "*" and "*.*" admit every table |
| `AllowList.BareEntry` | internal/connectors/postgres/connector.go:321-325 | An entry without "." admits exactly the tables of that name, in lower case, without a schema or in public |
| `AllowList.SchemaEntry` | internal/connectors/postgres/connector.go:313-316 | An entry "s.*" admits exactly the tables of schema s; "pg_catalog.*" also the unqualified pg_ ones |
| `AllowList.TableEntry` | internal/connectors/postgres/connector.go:317-329 | Another entry with "." admits exactly the schema and name pairs it is the text of, and a "pg_catalog.name" also the unqualified pg_ name |
| `AllowList.DeniedMeans` | internal/connectors/postgres/walk.go:25-33 | A function is denied exactly when its name, in lower case, is a listed name or extends one |
| `AllowList.DeniedIgnoresCase` | internal/connectors/postgres/walk.go:25-33 | The letter case of a function name does not matter |
| `AllowList.DeniedExtends` | internal/connectors/postgres/walk.go:25-33 | Whatever extends a denied name is denied |
| `Strings.FoldMeans` | internal/connectors/postgres/walk.go:26 | Two names fold alike exactly when they differ in the case of letters only |
| `TableScope.TableWalker.WalkValue` | internal/connectors/postgres/walk.go:63-93 | The descent appends exactly the specified references, keeps the first error, and changes no caller's scope map |
| `TableScope.TableWalker.WalkFields` | internal/connectors/postgres/walk.go:95-107 | The same for the fields of a node, one level deeper |
| `TableScope.TableWalker.WalkNode` | internal/connectors/postgres/walk.go:109-130 | The same for a node: range variables, function calls, SELECTs and the rest; the recursion ends by the depth limit |
| `TableScope.TableWalker.WalkSelect` | internal/connectors/postgres/walk.go:135-164 | A SELECT fills only its own copy of the scope: whatever it does, the scope map it was given is unchanged |
| `TableScope.TableWalker.WalkDefinitions` | internal/connectors/postgres/walk.go:148-154 | Under RECURSIVE every CTE query is walked with all names in scope |
| `TableScope.TableWalker.WalkInOrder` | internal/connectors/postgres/walk.go:155-161 | Otherwise each CTE query sees the earlier names only, and afterwards the scope holds all of them |
| `TableScope.TableWalker.DefineAll` | internal/connectors/postgres/walk.go:149-151 | All CTE names enter the scope folded |
| `TableScope.TableWalker.Fail` | internal/connectors/postgres/walk.go:57-61 | Only the first error is kept |
| `TableAccess.SameScope` | internal/connectors/postgres/walk.go:135-164 | A WITH clause whose free references are admitted binds the same results over two databases that agree on the admitted tables |
| `TableAccess.SameIterate` | internal/connectors/postgres/walk.go:148-154 | So does every iteration of a recursive WITH |
| `WorkCalendar.EasterIsFirstSundayAfterFullMoon` | internal/workcal/pl.go:28-44 | For every year from 0: the computed day is a Sunday, the first one strictly after the full moon of the Gregorian computus (golden number, epact with solar and lunar corrections), and lies between 22 March and 25 April |
| `WorkCalendar.FullMoonFromTerms` | internal/workcal/pl.go:29-40 | The algorithm's h and a determine the ecclesiastical full moon of the reference computus |
| `WorkCalendar.LunarCorrection` | internal/workcal/pl.go:35-36 | The code's g is Gauss's lunar correction (8 * century + 13) / 25 |
| `WorkCalendar.OffsetBounds` | internal/workcal/pl.go:37-43 | The month is March or April, and m is 1 exactly in the two exceptional moons (29, or 28 late in the cycle) that would give a late Easter |
| `WorkCalendar.NoNegativeDividend` | internal/workcal/pl.go:28-43 | No dividend is negative, so truncating and flooring division agree |
| `Gregorian.MarchFirst` | internal/workcal/pl.go:18-20 | The recursive day count of the calendar has the closed form with leap days every 4 years, less every 100, plus every 400 |
| `Gregorian.YearUnique` | internal/workcal/pl.go:74-75 | The year of a day number is the only one whose days include it |
| `Gregorian.DateIs` | internal/workcal/pl.go:18-20 | A day number has exactly one year, month and day of the month |
| `HolidayDates.HolidayIffAct` | internal/workcal/pl.go:47-82 | A date has a holiday name exactly when its month and day are one of the fixed holidays of that name (24 December from 2025 on), or it is Easter Sunday, the Monday after it, the seventh Sunday after it, or the Thursday of the second week after that Sunday |
| `HolidayDates.MovableIs` | internal/workcal/pl.go:52-57 | Told by weekdays and weeks, the movable holidays are the days 0, 1, 49 and 60 after Easter, and no others |
| `HolidayDates.MovableWeekdays` | internal/workcal/pl.go:52-57 | Easter and Pentecost fall on a Sunday, Easter Monday on a Monday, Corpus Christi on a Thursday |
| `HolidayDates.HolidayCount` | internal/workcal/pl.go:47-71 | Exactly 13 dates of a year are holidays, 14 from 2025 on |
| `HolidayDates.WorkingDayIs` | internal/workcal/pl.go:85-91 | A working day is a Monday to Friday on which the act has no holiday |
| `WorkCalendar.HolidaysAscending` | internal/workcal/pl.go:47-71 | In every year the holiday list is strictly increasing in date and stays within the year |
| `WorkCalendar.HolidayNameMeans` | internal/workcal/pl.go:74-82 | A date has a holiday name exactly when its year's list holds that date under that name; HolidayDates.HolidayIffAct says which dates these are |
| `WorkCalendar.WorkingDays` | internal/workcal/pl.go:95-103 | The count is the number of working dates in the range, both ends included |
| `WorkCalendar.HolidaysBetween` | internal/workcal/pl.go:107-118 | The list holds exactly the dates in range that have a holiday name, in strict order |
| `WorkCalendar.AppendYear` | internal/workcal/pl.go:109-116 | One year's pass appends exactly that year's holidays in range |
| `WorkCalendar.WorkingDaysAreWeekdaysLessHolidays` | internal/workcal/pl.go:85-118 | Working days are the Monday to Friday days less the holidays that fall on Monday to Friday |
| `WorkCalendar.WorkingDaysAdditive` | internal/workcal/pl.go:95-103 | Working days of adjacent ranges add up |
| `LineDiff.DiffLines` | cmd/egw-desktop/yamledit.go:153-193 | The table and the greedy walk produce the specified script, for inputs of up to 2^31 - 1 lines each, without int32 overflow |
| `LineDiff.FillTable` | cmd/egw-desktop/yamledit.go:154-169 | Every cell holds the longest common subsequence length of the two suffixes |
| `LineDiff.FillRow` | cmd/egw-desktop/yamledit.go:159-169 | One row is filled from the row below and no other row changes |
| `LineDiff.DiffSpellsBoth` | cmd/egw-desktop/yamledit.go:153-193 | Kept and dropped lines spell the old text in order, kept and added lines the new one, and kept lines are equal on both sides |
| `LineDiff.ScriptKeepsLcs` | cmd/egw-desktop/yamledit.go:170-192 | The greedy walk keeps exactly as many lines as the table promises |
| `LineDiff.DiffIsOptimal` | cmd/egw-desktop/yamledit.go:153-193 | No common subsequence of the two texts is longer than the number of kept lines |
| `YamlPatch.PatchIsFaithful` | cmd/egw-desktop/yamledit.go:81-136 | Original lines appear at most once and in order; an original line survives exactly when it is unmatched or its match is kept; every added line appears once in order; the o > last guard never drops anything; and every piece of the output is a line that exists |
| `YamlPatch.GuardNeverFails` | cmd/egw-desktop/yamledit.go:113-129 | The plan with the guard is the plan without it |
| `YamlPatch.PatchShows` | cmd/egw-desktop/yamledit.go:81-136 | The output without unmatched original lines is, line by line up to white space, the edited rendering without exactly those kept lines whose rendered line found no original |
| `YamlPatch.PatchSpellsEdit` | cmd/egw-desktop/yamledit.go:81-136 | It is the whole edited rendering if the rendered lines are, up to white space, among the original lines in their order |
| `YamlPatch.PatchOp` | cmd/egw-desktop/yamledit.go:113-129 | The body of the output loop writes what one operation of the edit stands for |
| `YamlPatch.AllAnchored` | cmd/egw-desktop/yamledit.go:81-98 | Every rendered line finds its original exactly when the rendered lines are a subsequence of the non-blank original ones, up to white space |
| `YamlPatch.UneditedPatchIsIdentity` | cmd/egw-desktop/yamledit.go:54-136 | Patching with an unchanged rendering gives the original lines back |
| `YamlPatch.AnchorsAnchor` | cmd/egw-desktop/yamledit.go:81-104 | The anchors are an order-preserving matching of rendered lines with original lines equal up to white space |
| `YamlPatch.AnchorLines` | cmd/egw-desktop/yamledit.go:81-104 | The loops compute those anchors |
| `YamlPatch.PatchLines` | cmd/egw-desktop/yamledit.go:104-130 | The output loop writes exactly the planned lines |
| `YamlPatch.FlushTo` | cmd/egw-desktop/yamledit.go:106-112 | Flushing writes the unmatched original lines up to a position, each with its own text |
| `YamlPatch.Patched` | cmd/egw-desktop/yamledit.go:54-136 | The whole function; equal renderings give the file back byte for byte (its line ends: the LineEnds rows) |
| `LineEnds.NewLineEndIsMajority` | cmd/egw-desktop/yamledit.go:70-73 | Added lines get a carriage return exactly when more than half of the file's newlines follow one |
| `LineEnds.PatchedLineIs` | cmd/egw-desktop/yamledit.go:113-129 | A line kept from the file is that line, byte for byte; an added one is the rendering's with the line end of the majority |
| `LineEnds.NoCarriageReturns` | cmd/egw-desktop/yamledit.go:70-136 | If neither the file nor the edited rendering has a carriage return, the patched file has none |
| `LineEnds.CarriageReturnsKept` | cmd/egw-desktop/yamledit.go:70-136 | If every newline of the file follows a carriage return, so does every newline of the patched file: if the file ends in a newline, exactly unless no line is left; if it does not, exactly unless its last line, having no carriage return, now stands before another line |
| `LineEnds.LastLineExample` | cmd/egw-desktop/yamledit.go:70-136 | The input that shows the exception |
| `LineEnds.WithoutCrDrops` | cmd/egw-desktop/yamledit.go:138-145 | A rendering's line ends lose their carriage returns, and nothing else changes |
| `YamlPatch.AssembleTextLines` | cmd/egw-desktop/yamledit.go:74-77 | Splitting a text into lines and assembling them again is the identity |
| `YamlPatch.NormIgnoresLineEnd` | cmd/egw-desktop/yamledit.go:81-90 | A carriage return at a line's end does not affect the comparison |
| `Words.SameNormSameWords` | cmd/egw-desktop/yamledit.go:81 | Two lines compare equal exactly when they have the same words |
| `Words.FieldsAreTheWords` | cmd/egw-desktop/yamledit.go:81 | The words of a line are the only ones, without white space, that it is spaced out of |
| `Words.NormKeepsInk` | cmd/egw-desktop/yamledit.go:81 | The compared text keeps every character that is not white space, in order |
| `ShapeInPlace.Shape` | internal/redact/hook.go:65-79 | What is returned stands for the specified projection, with everything reachable from it, although it is built in place over maps that may belong to the response; and the response's own maps end up unchanged |
| `ShapeInPlace.PieceStands` | internal/redact/hook.go:88-180 | A partial copy stands for its projection: under its aliased parts it shows the response itself |
| `ShapeInPlace.DeepMerge` | internal/redact/hook.go:132-140 | In-place merging of two partial copies of one response yields their merge and leaves every map of the response as it was |
| `ShapeInPlace.MergeValues` | internal/redact/hook.go:142-180 | The same for any two values, arrays and nil elements included |
| `ShapeInPlace.MergeSlices` | internal/redact/hook.go:149-175 | Two index-aligned partial copies of one array are merged element by element into a new one |
| `ShapeInPlace.ProjectVal` | internal/redact/hook.go:88-127 | A projection is found exactly when the path exists and stands for the specified value, sharing only whole sub-values with the response |
| `ShapeInPlace.ProjectItems` | internal/redact/hook.go:95-113 | The same across an array |
| `ShapeInPlace.MergeMeans` | internal/redact/hook.go:132-180 | What the heap merge builds denotes the merge of what its two sides denote |
| `ResponseShape.ShapeIgnoresOrder` | internal/redact/hook.go:65-79 | The output depends on the set of allowed fields only, not on their order or repetition |
| `ResponseShape.ShapeIdempotent` | internal/redact/hook.go:65-79 | Applying Shape twice equals applying it once |
| `ResponseShape.ShapeIsLeastUpperBound` | internal/redact/hook.go:65-180 | The output is the least part of the input that contains every allowed projection |
| `ResponseShape.ShapeIsSound` | internal/redact/hook.go:65-180 | Every non-null scalar of the output is the input's own scalar at the same path, and that path extends an allowed field |
| `ResponseShape.ShapeIsComplete` | internal/redact/hook.go:65-180 | Everything the input has under an allowed field is in the output whole |
| `ResponseShape.MergeIntoSource` | internal/redact/hook.go:128-140 | Merging a part of a value back into that value changes nothing, which is why aliasing is harmless |
| `ResponseShape.ProjectIsPart` | internal/redact/hook.go:88-127 | A projection never contains more than its source |
| `ResponseShape.SplitPath` | internal/redact/hook.go:185-209 | The loop computes the specified segments |
| `ResponseShape.SplitPathRoundTrip` | internal/redact/hook.go:185-209 | Every path over plain keys and "[]" is recovered from its text |
| `EditDistance.EditDistance` | internal/server/server.go:1690-1708 | The rolling rows compute the distance |
| `EditDistance.NextRow` | internal/server/server.go:1695-1705 | A row follows from the previous one |
| `EditDistance.LevIsLeastScript` | internal/server/server.go:1689-1708 | The distance is the least number of single-byte insertions, deletions and substitutions that turn one text into the other: some script has that length and none is shorter |
| `EditDistance.LevSymmetric` | internal/server/server.go:1689-1708 | The distance is symmetric |
| `EditDistance.LevTriangle` | internal/server/server.go:1689-1708 | The distance satisfies the triangle inequality |
| `ClosestOps.ClosestAllowedOps` | internal/server/server.go:1624-1680 | The answer is the first three of all candidates within half the longer length, in the order distance, length gap, name; nothing else is named and none is left out for a worse one, whatever is reloaded between the look-ups |
| `ClosestOps.NearMeans` | internal/server/server.go:1650-1658 | Near means that twice the distance is at most the longer length |
| `ClosestOps.BeforeMeans` | internal/server/server.go:1662-1671 | A candidate comes first by smaller distance, then by closer length, then by name |
| `ClosestOps.SteadyLive` | internal/server/server.go:1634-1649 | Without a reload the candidates are exactly the granted, registered operations |
| `ClosestOps.LiveWasGranted` | internal/server/server.go:1634-1649 | With reloads, every candidate was granted by the configuration read for some grant, and registered when it was looked up there |
| `ClosestOps.Collect` | internal/server/server.go:1634-1661 | Every candidate within reach is scored once, and nothing else |
| `ClosestOps.LengthTestIsSafe` | internal/server/server.go:1650-1658 | The length pre-filter never drops a candidate the distance test would keep |
| `ClosestOps.ConsiderRole` | internal/server/server.go:1642-1660 | One role's operations are each looked at once, in the registry of that moment |
| `ClosestOps.SortScored` | internal/server/server.go:1662-1671 | Sorting yields the same scores in strict order |
| `Sorting.Sort` | internal/server/jira_worklog.go:650 | A stable sort by a weak order: the same elements in order, those that tie in their old order |
| `Sorting.TextLessMeans` | internal/server/server.go:1670 | One text comes before another exactly when it is a proper beginning of it or has the smaller byte where they first differ |
| `Redaction.HiddenIffSolid` | internal/secrets/resolver.go:208-222 | A registered value is hidden from all data, whatever else is registered, if and only if it neither starts nor ends with "*" and has no "***" inside |
| `Redaction.RedactHides` | internal/secrets/resolver.go:208-222 | The output does not contain such a value, whatever else is registered |
| `Redaction.StarlessIsSolid` | internal/secrets/resolver.go:208-222 | In particular a value without "*" |
| `Redaction.ReplaceCreatesNothing` | internal/secrets/resolver.go:214-220 | Replacing a value by the placeholder creates no occurrence of any text that no placeholder can complete |
| `Redaction.ReplaceRemoves` | internal/secrets/resolver.go:214-220 | After replacing such a value none of it is left |
| `Redaction.ReplaceFirst` | internal/secrets/resolver.go:215-221 | The first occurrence of a value gives way to "***" and the rest of the text is searched on |
| `Redaction.ReplaceNone` | internal/secrets/resolver.go:215-221 | A text without the value stays as it is |
| `Redaction.RedactNeverGrows` | internal/secrets/resolver.go:208-222 | The output is never longer than the input |
| `Redaction.StarsCanReappear` | internal/secrets/resolver.go:208-222 | One input that fails the condition: a registered value reappears after a later one is replaced |
| `Secrets.CacheIsTransparent` | internal/secrets/resolver.go:69-136 | Over a set of references, every run of Resolve, Set, Delete and FlushCache answers what the store and the empty-value check answer, whatever the clocks say, if and only if different references have different cache keys |
| `Secrets.SlashFreeIsTransparent` | internal/secrets/resolver.go:69-136 | So it is for all references with slash-free workspace names |
| `Secrets.SlashesCollide` | internal/secrets/resolver.go:70-75 | Not so for two references that share a key through a "/" in a workspace name |
| `Secrets.KeysCollide` | internal/secrets/resolver.go:70-75 | The run that fails for two references with one key: the second Resolve answers the first secret |
| `Secrets.AnswerIsRecent` | internal/secrets/resolver.go:69-99 | Over runs with writes past the resolver: an answer is what the store holds now, or what it held at an earlier read of the same key less than the ttl ago |
| `Secrets.ExpiredIsReadAgain` | internal/secrets/resolver.go:72-81 | Once every earlier read of the key is as old as the ttl, the answer is what the store holds now |
| `Secrets.FreshIsCached` | internal/secrets/resolver.go:73-77 | Until then the cached secret is the answer, whatever was written past the resolver |
| `Secrets.CacheIsRead` | internal/secrets/resolver.go:89-94 | Every cached secret was read from the store by an earlier resolve |
| `Secrets.StoreAnswers` | internal/secrets/resolver.go:101-106 | A secret of two or more bytes is answered as it is, a shorter one counts as empty |
| `Secrets.ReturnedSecretsStayRegistered` | internal/secrets/resolver.go:69-99 | Every value of five or more bytes that Resolve ever returned is registered from then on |
| `Secrets.RedactionCoversReturnedSecrets` | internal/secrets/resolver.go:69-222 | Put together: no later redacted output contains such a value, unless a placeholder can complete it, or is longer than its input |
| `Secrets.TaintExactRegisters` | internal/secrets/resolver.go:179-194 | Registering keeps everything registered before and adds the value, given a collision-free digest |
| `Secrets.Resolver.ResolveSecret` | internal/secrets/resolver.go:69-99 | The new cache, registry and answer, with the two clock readings as inputs |
| `Secrets.Resolver.SetSecret` | internal/secrets/resolver.go:108-111 | A write forgets the cached entry whether or not the store accepted it |
| `Secrets.Resolver.DeleteSecret` | internal/secrets/resolver.go:113-116 | So does a delete |
| `Secrets.Resolver.Flush` | internal/secrets/resolver.go:132-136 | Flushing empties the cache and keeps the registry |
| `Secrets.Resolver.TaintSecret` | internal/secrets/resolver.go:147-158 | The value and its derived forms are registered in order |
| `Secrets.Resolver.TaintOne` | internal/secrets/resolver.go:179-194 | Short and already seen values are skipped |
| `Secrets.Resolver.Redact` | internal/secrets/resolver.go:208-222 | The loop replaces every registered value in turn |
| `JqlMeaning.ScopedMeans` | internal/policy/registry.go:75-109 | For every accepted query and non-empty list of plain keys: the rewrite splits again with the same ORDER BY, parses exactly when the filter does, and means "filter and project listed" |
| `JqlMeaning.WrappedParses` | internal/policy/registry.go:92-102 | Under an OR/AND/NOT precedence parser the added opening parenthesis is closed only by the added closing one: the parse is AND of the filter's own parse and the project clause |
| `JqlMeaning.LexWrapped` | internal/policy/registry.go:100-102 | The tokens of the wrapped query are those of the filter between the added ones |
| `JqlMeaning.LexDepth` | internal/policy/registry.go:121-146 | The byte scan and the lexer count the same parentheses |
| `JqlMeaning.OrStops` | internal/policy/registry.go:100-102 | A parse inside balanced parentheses stops where the input would end |
| `JqlResplit.ScopedSplitsBack` | internal/policy/registry.go:75-162 | Splitting the rewrite again returns the wrapped filter and the same ORDER BY |
| `JqlResplit.SplitParts` | internal/policy/registry.go:121-162 | Filter and ORDER BY of an accepted query are balanced and trimmed, and the ORDER BY matches the sort-field pattern |
| `JqlResplit.WrappedFacts` | internal/policy/registry.go:92-102 | No ORDER BY can start inside the wrapper, and it leaves quotes and parentheses balanced |
| `JqlScope.SplitJqlOrderBy` | internal/policy/registry.go:121-162 | The scan over quote, depth and position computes the specified split: balanced quotes and parentheses, the first top-level ORDER BY |
| `JqlScope.FirstOrder` | internal/policy/registry.go:141-144 | The position found is the first one that qualifies |
| `JqlScope.OrderByMeans` | internal/policy/registry.go:112 | ORDER BY starts where the two words stand, in any case, with white space between them and no word byte after them |
| `JqlResplit.SplitKeepsText` | internal/policy/registry.go:121-162 | Filter and ORDER BY are the whole query but for white space around them, parted at the first place where an ORDER BY may start; a query is refused exactly when it is unbalanced or sorts by what it may not |
| `JqlScope.Check` | internal/policy/registry.go:75-109 | Denied without a query, unchanged without a scope, otherwise the rewrite or a refusal of the split |
| `PathExpansion.SeparatorsComeFromTemplate` | internal/server/pathtemplate.go:84-132 | An expansion has exactly the "?" and "#" of its trusted text, and exactly its "/" unless a raw multi-segment value is substituted |
| `PathExpansion.QueryPairsComeFromTemplate` | internal/server/pathtemplate.go:109-131 | The query part of an accepted expansion has exactly the "&" and "=" of the trusted text's query part if and only if no parameter value that enters with "&" or "=" follows a site value with "?" before the template's own first "?" |
| `PathExpansion.SiteQueryIsExposed` | internal/server/pathtemplate.go:93-127 | The input that fails: a site value "?a=" followed by the raw value "1&b=2" |
| `PathExpansion.OwnPieces` | internal/server/pathtemplate.go:84-132 | Values are never scanned again: changing one parameter changes no piece but its own placeholders' |
| `PathExpansion.ExpandPathTemplate` | internal/server/pathtemplate.go:84-132 | The loop over the placeholders writes the specified pieces, or refuses (what they are: the PathValues rows) |
| `PathValues.QueryEscapeRoundTrip` | internal/server/pathtemplate.go:113-115 | Every query-escaped byte string form-decodes to itself |
| `PathValues.ValuesArrive` | internal/server/pathtemplate.go:84-132 | Every parameter value of an expansion arrives as it was sent: in a query it form-decodes to the value, urlencoded elsewhere it percent-decodes to it, and raw it is the value |
| `PathValues.TheRestStays` | internal/server/pathtemplate.go:84-132 | Site values enter verbatim, placeholders that name nothing and all text between placeholders stay |
| `PathValues.ExpansionRefused` | internal/server/pathtemplate.go:110-128 | An expansion is refused exactly when some parameter value is a dot or two where it is urlencoded outside a query, or, raw, breaks out of its segment, has a ";", or has "&", "=" or "+" in a query |
| `PathValues.HolesAre` | internal/server/pathtemplate.go:12 | The placeholders filled in are exactly the non-empty names without braces that stand in braces |
| `PathValues.EscapesAreQuiet` | internal/server/pathtemplate.go:113-120 | Escaping leaves nothing but letters, digits, -_.~ and escapes, in a query also "+", in a path also $&+=:@ |
| `PathValues.PlainStaysPlain` | internal/server/pathtemplate.go:113-120 | Letters, digits and -_.~ are never escaped |
| `PathValues.SingleIsAccepted` | internal/server/pathtemplate.go:20-45 | A single-segment value is accepted exactly when it has no control character, none of ? # \\ / % and no two dots together |
| `PathValues.MultiIsAccepted` | internal/server/pathtemplate.go:20-62 | A multi-segment value is accepted exactly when it has no control character, none of ? # \\, no two dots together, only escapes of safe bytes, and no empty or dot segment |
| `PathValues.AcceptedIsHarmless` | internal/server/pathtemplate.go:20-62 | Decoded, an accepted multi-segment value has no control character, backslash, "?" or "#", and no ";" of its own |
| `PathExpansion.Holes` | internal/server/pathtemplate.go:12 | The placeholders are disjoint and in order |
| `PathExpansion.MultiSegmentIsSafe` | internal/server/pathtemplate.go:121-127 | A raw multi-segment value enters an accepted expansion verbatim; its decoded segments are those of the decoded value, none empty, "." or with ".." |
| `PathExpansion.PathEscapeRoundTrip` | internal/server/pathtemplate.go:116-120 | A path-escaped value decodes to itself |
| `PathDots.AcceptedSingleSegment` | internal/server/pathtemplate.go:20-43 | An accepted single-segment value is one segment and decodes to itself; it is a safe one exactly when it is neither empty nor "." |
| `PathDots.DotIsAccepted` | internal/server/pathtemplate.go:20-43 | Those two values are accepted |
| `PathDots.DotSegmentsComeFromDotValues` | internal/server/pathtemplate.go:84-132 | The path of an accepted expansion has a "." or ".." segment exactly when it has one after every parameter value but "", "." and ".." is replaced by an "x": no other value ever makes one |
| `PathDots.TwoDotsMeet` | internal/server/pathtemplate.go:84-132 | Two accepted values that make one together |
| `PathDots.ReadingMeans` | internal/server/pathtemplate.go:84-132 | The reading used to count dots finds exactly the dot segments of the path |
| `PathTemplate.AcceptedMultiSegment` | internal/server/pathtemplate.go:20-45 | For an accepted multi-segment value, percent-decoding (section 2.1 of RFC 3986) commutes with splitting on "/", and no decoded segment is empty, "." or contains ".." |
| `PathTemplate.DecodeCommutesWithSplit` | internal/server/pathtemplate.go:34-62 | The commutation needs only that no escape is unsafe |
| `PathTemplate.DecodeMakesNoDots` | internal/server/pathtemplate.go:20-62 | Decoding creates no ".." |
| `PathTemplate.HasPathInjection` | internal/server/pathtemplate.go:20-45 | The checks and loops decide exactly the specified refusal |
| `PathTemplate.HasUnsafeEscape` | internal/server/pathtemplate.go:47-62 | The index loop finds a malformed or unsafe escape exactly when there is one |
| `PathValues.EscapesAreSafe` | internal/server/pathtemplate.go:47-62 | No unsafe escape is found exactly when every "%" begins an escape of a byte that is no control character and none of / \\ . ? # ; |
| `PathValues.SegmentsRejoin` | internal/server/pathtemplate.go:34-40 | Segments have no "/" and, joined by "/", are the value again |
| `JobRuns.RunningHasOneExecutor` | internal/scheduler/scheduler.go:135-165 | In every reachable state no id has two executors in flight, a running job has exactly one, a pending or settled one none, and a completed or failed one has a result with matching success; ids may be added again while no executor of them is in flight |
| `JobRuns.ClaimedAtMostOnce` | internal/scheduler/scheduler.go:135-145 | Along every run that does not add its id again, each job is claimed successfully at most once |
| `JobRuns.CancelledIsFinal` | internal/scheduler/scheduler.go:149-194 | A cancelled job stays cancelled until deleted, as long as its id is not added again |
| `JobRuns.SettledIsFinal` | internal/scheduler/scheduler.go:149-194 | A completed or failed job keeps its whole record until deleted, as long as its id is not added again |
| `JobRuns.ResultIsReported` | internal/scheduler/scheduler.go:149-165 | A settled job's result is one that a finish of its executor reported |
| `JobRuns.NextKeepsInv` | internal/scheduler/scheduler.go:71-194 | Every operation keeps the store invariant |
| `JobRuns.AddAgainIff` | internal/scheduler/scheduler.go:71-84 | Adding an id keeps it at one executor, whatever follows, if and only if no executor of that id is in flight |
| `JobRuns.ReusedIdRunsTwice` | internal/scheduler/scheduler.go:71-84 | A run that adds an id while its executor is in flight: two executors of one job |
| `JobStore.Store.constructor` | internal/scheduler/scheduler.go:65-69 | A new store is empty |
| `JobStore.Store.Add` | internal/scheduler/scheduler.go:71-84 | Stores a private copy as pending under the given or generated id and reports id and time back in the caller's job |
| `JobStore.Job.Name` | internal/scheduler/scheduler.go:72-78 | A job without id or creation time gets one, and every job becomes pending |
| `JobStore.Store.Keep` | internal/scheduler/scheduler.go:79-82 | The copy is stored under its id and nothing else changes |
| `JobStore.Store.Get` | internal/scheduler/scheduler.go:86-94 | Returns a private copy |
| `JobStore.Store.Claim` | internal/scheduler/scheduler.go:135-145 | Moves a pending job to running and returns a private copy; anything else is left alone |
| `JobStore.Store.Finish` | internal/scheduler/scheduler.go:149-165 | Records the result; the status changes only if the job is still running |
| `JobStore.Store.Delete` | internal/scheduler/scheduler.go:167-176 | Removes the job, or reports that there is none |
| `JobStore.Store.Cancel` | internal/scheduler/scheduler.go:178-194 | Refuses unknown jobs, other agents and settled jobs, in this order |
| `JobStore.Store.Due` | internal/scheduler/scheduler.go:249-256 | Lists exactly the pending jobs due, each once |
| `JobStore.Store.Execute` | internal/scheduler/scheduler.go:263-291 | A claim, its outcome by job type, and the finish, when nothing comes in between |
| `PipelineRuns.CallsAreJustified` | internal/server/server.go:480-580 | Over every interleaving of requests with reloads, an http-rest, mcp or email call is justified by the one pair installed when the request's own load ran, and by the answers the tunnel checker gave at the request's own tunnel check after it |
| `PipelineRuns.ReplyIsOneDecision` | internal/server/server.go:480-580 | Every reply is the one atomic decision of the pair the request's load read, with the answers its tunnel check got (a reply before that check depends on no answers), or the refusal of a request whose token the installed pair did not know |
| `PipelineRuns.RunRecords` | internal/server/server.go:480-580 | The pair a request works with and the tunnel answers it relies on were read at steps of its own, in this order |
| `PipelineRuns.RunKeepsInv` | internal/server/server.go:2286-2304 | Every request step and every reload keeps what each request's progress stands for, up to the tunnel being open by the recorded answers |
| `Pipeline.CallIffJustified` | internal/server/server.go:480-580 | A request gets as far as an upstream call, its path included, if and only if the pair grants the operation, has the site enabled, accepts the parameters, applied the constraints, the environment called is the one whose tunnel was checked, and the path is the template's expansion |
| `Pipeline.CallPathKeepsSeparators` | internal/server/server.go:773-782 | The path of a call has exactly the "?" and "#" of its template's trusted text |
| `Pipeline.ExecuteOp` | internal/server/server.go:480-580 | The steps of executeOp, over one parameter map, make that decision |
| `Pipeline.AgentHasOp` | internal/server/server.go:647-662 | Both loops find a grant exactly when some grant of the workspace has a role with the operation |
| `Pipeline.FindAgent` | internal/server/server.go:485-489 | The agent with the token |
| `Pipeline.ResolveEnv` | internal/server/server.go:669-697 | The environment answered is one of the site's; which one: the next four rows |
| `Pipeline.EnvDecides` | internal/server/server.go:679-696 | A non-empty text env is the answer if the site has it, and otherwise there is none, whatever cluster and default are |
| `Pipeline.ClusterDecides` | internal/server/server.go:679-696 | Only without it a non-empty text cluster decides, in the same way |
| `Pipeline.DefaultDecides` | internal/server/server.go:683-696 | Only without both the site's default decides |
| `Pipeline.SoleDecides` | internal/server/server.go:686-691 | With all three empty the answer is the site's only environment; with several, or none, there is no answer |
| `Pipeline.CallEnvIsNamed` | internal/server/server.go:669-697 | The environment of every justified call is the env the request names, if it names one; without one in the final parameters, their cluster |
| `Pipeline.EnvMustResolve` | internal/server/server.go:699-714 | The environment must be decided exactly for the connectors http-rest, mcp, email and jira-worklog on a known site |
| `Pipeline.CallKeepsParams` | internal/server/server.go:530-555 | A parameter of the request other than jql is a parameter of the call, unchanged |
| `Pipeline.CallChannelIsListed` | internal/server/server.go:621-643 | The channel of a justified call is one of slack_channels, when the list is set and the operation has a channel |
| `Pipeline.ChannelsUnrestricted` | internal/server/server.go:621-643 | Without a list, a declared channel or a named one, nothing is refused for it |
| `Pipeline.CallIsAddressed` | internal/server/server.go:754-771 | A justified call has an address and, for a Slack file, a file id and a session |
| `Pipeline.CallPathFilledIn` | internal/server/server.go:773-782 | The path of an http-rest call has at each placeholder the environment's site value of that name, or else the call's own parameter as it arrives there |
| `Pipeline.AgentIsFirst` | internal/server/server.go:485-489 | With a shared token the first agent counts |
| `Validation.ValidateParams` | internal/policy/registry.go:333-442 | No error if and only if every declared parameter passes and none is undeclared; the parameter blamed is the first failing one in sorted order |
| `ParamRules.TextRules` | internal/policy/registry.go:350-366 | A text may be as long as the maximum and no longer, if there is one, and must match the pattern, if there is one |
| `ParamRules.NumberRules` | internal/policy/registry.go:379-386 | A number may be the maximum and no more, if there is one |
| `ParamRules.ObjectRules` | internal/policy/registry.go:367-378 | An object may have the listed keys only; without a list any |
| `ParamRules.ValueRules` | internal/policy/registry.go:391-425 | A choice is one of the listed values; without a list any text |
| `ParamRules.WorkspaceRules` | internal/policy/registry.go:396-413 | A choice from a workspace list is one of the list; an unset, empty or unknown list refuses no text |
| `ParamRules.LooserAcceptsMore` | internal/policy/registry.go:349-426 | Loosening a definition never refuses more |
| `ParamRules.LiteralScope` | internal/policy/registry.go:493-505 | A literal project list without a non-empty text refuses the request; any other enforces exactly its non-empty texts |
| `ParamRules.WorkspaceScope` | internal/policy/registry.go:484-492 | A project list read from the workspace is one of three; every other reading, and an unset list, falls back to jira_projects |
| `Validation.SortedNames` | internal/policy/registry.go:335-339 | The sorted names are exactly the declared ones |
| `Validation.Params.CheckConstraints` | internal/policy/registry.go:477-523 | Constraints are applied in order to the request's own map |
| `Validation.Params.CheckScope` | internal/policy/registry.go:75-109 | A scope rewrites jql in the map, or refuses |
| `Validation.Params.ApplyDefaults` | internal/policy/registry.go:322-331 | Parameters present keep their value, absent ones with a default get it |
| `Validation.Defaulted` | internal/policy/registry.go:322-331 | Nothing else is added |
| `CallScope.CallJqlIsScoped` | internal/server/server.go:536-555 | The jql of every justified call means the request's own query and every enforced project scope, with the request's ORDER BY |
| `CallScope.ConstrainMeans` | internal/policy/registry.go:477-523 | A chain of scopes changes nothing but jql and means the conjunction of all of them |
| `CallScope.OneScope` | internal/policy/registry.go:75-109 | One scope narrows the meaning by exactly its project clause |
| `WorklogReport.Report` | internal/server/jira_worklog.go:575-596 | The period's seconds equal the sum over its days and the sum over its issues; every day lists exactly its own entries in order, every issue total is that of its entries |
| `WorklogReport.FullReport` | internal/server/jira_worklog.go:542-622 | From listing to report: it fails exactly when over 500 issues are behind the listing or one of the caller's dates cannot be read; otherwise day totals and issue totals both come to the seconds of the caller's worklogs on visible issues in the period, and the week's and month's seconds are theirs |
| `WorklogReport.EntriesAreLogged` | internal/server/jira_worklog.go:626-652 | The entries' seconds within the fetched dates are those of the caller's worklogs on visible issues |
| `WorklogReport.Sum` | internal/server/jira_worklog.go:565-573 | The seconds of the entries in a range, ends included |
| `WorklogReport.FetchLosesNothing` | internal/server/jira_worklog.go:551-573 | Totals over the period, week or month do not change when entries outside the fetched dates are left out |
| `WorklogReport.PeriodsPartition` | internal/server/jira_worklog.go:505-515 | A day lies in another day's period exactly when both have the same period: days, ISO weeks and months partition the calendar |
| `WorklogReport.MonthIsExact` | internal/server/jira_worklog.go:510-513 | A month's range is exactly the days of that month and year |
| `WorklogReport.WeekIsMondayToSunday` | internal/server/jira_worklog.go:507-509 | A week runs from Monday to Sunday |
| `WorklogReport.OtherPeriodsAreDays` | internal/server/jira_worklog.go:505-515 | Any other period is the day itself |
| `WorklogReport.FetchedCovers` | internal/server/jira_worklog.go:551-554 | The fetched range covers the period, the week and the month and nothing else |
| `WorklogReport.NormOf` | internal/server/jira_worklog.go:519-540 | Time left less overtime is the norm less what is logged; the norm to date and the norm of the remaining days add up to the norm; the working days are the weekdays less the listed weekday holidays |
| `WorklogReport.IssueSumAdd` | internal/server/jira_worklog.go:587-592 | Adding to one issue adds the same to the sum over issues |
| `WorklogFetch.TempoWorklogs` | internal/server/jira_worklog.go:246-270 | Whatever the page sizes, the whole listing comes back once, in order |
| `WorklogFetch.ScopedIssues` | internal/server/jira_worklog.go:273-300 | Over 500 distinct issues are refused without a search; otherwise the searches made are for chunks of 1 to 100 ids that cover every distinct id exactly once, and the result is the visible issues among them |
| `WorklogFetch.DistinctIds` | internal/server/jira_worklog.go:274-281 | Each issue id of the worklogs, once |
| `WorklogFetch.MyEntries` | internal/server/jira_worklog.go:636-651 | The caller's entries on visible issues within the dates, stably sorted by start; an unreadable date refuses the report |
| `WorklogFetch.EntryShows` | internal/server/jira_worklog.go:626-652 | An entry has its worklog's id, day and seconds, its issue's key, and starts with the date, then hours and minutes if there are any |
| `WorklogReport.TotalIgnoresOrder` | internal/server/jira_worklog.go:650 | The sort changes no total |

## Left out

- TableAccess.WalkRecordsFreeRefs: WITH clauses on SELECTs only; on other nodes the walker also records the CTE names themselves, so its list is longer (TableAccess.FreeIsWalked covers them).
- SQL trees: SEARCH and CYCLE clauses and CTE list items that are no CTE; catalog-qualified names; functions that are not denied count as pure.
- Dates before year 0, and report periods that start before it.
- LineDiff.DiffLines: inputs of 2^31 or more lines, where the int32 table would overflow.
- YamlPatch.Patched: YAML parsing and rendering; the two renderings are inputs.
- Secrets.RedactionCoversReturnedSecrets: SHA-256 is an arbitrary digest without collisions, the derived forms of a secret (trimmed, URL- and JSON-escaped) are an arbitrary list; runs are sequential.
- JqlMeaning.ScopedMeans: keywords are AND, OR and NOT; the symbol forms `&&`, `||` and `!` are ordinary tokens of a clause. Project keys are non-empty and made of word bytes. The sort-field pattern is an arbitrary predicate.
- PathExpansion.ExpandPathTemplate: parameter values are already formatted text; the escaping of net/url is written out byte by byte.
- Text: a char stands for a byte; case folding and white space are ASCII.
- JobRuns.RunningHasOneExecutor: Update, which overwrites any status by design, is not a step of a run, nor is an Add of an id in flight.
- Pipeline.CallIffJustified: secrets, body building and query strings, which may still stop or shape the call; authentication happens before (a step of PipelineRuns).
- Connectors: the download that follows a Slack file's description, postgres, local-service and jira-worklog calls, dry runs, auditing and reply writing.
- Validation.ValidateParams: number parameters are reals, not floats; of an object only the keys are kept; a pattern that does not compile counts as not matching.
- WorklogFetch.TempoWorklogs: the server is assumed to serve one fixed listing, with a next link exactly while more follows; ScopedIssues likewise assumes a search that finds exactly the visible issues asked for, its own paging left out.
- WorklogReport.FullReport: hours rounded to floats, the order of issue totals, and the norms of the report (NormOf).
- Connectors, tunnels, OAuth, the desktop application, audit files, secret store backends, configuration loading.
