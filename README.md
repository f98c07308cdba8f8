# JBWT form extraction, modelled in Dafny

The tool reads the XML definition of a JBWT form and extracts its behaviour: the
grids, their permissions and data sources, their events and toolbar buttons, the
popups, and the Groovy/SQL scripts behind each action reference. It then shows
the result and exports it to an Excel workbook with one sheet per grid. This
project models the extraction engine of `script.js` and proves properties of it:

- `jsstring.dfy`: the JavaScript string operations the engine relies on. These
  are `String.prototype.trim` with the exact ECMAScript white-space set,
  `split` on one character, `join`, and the `||` / `?.` fallbacks.
- `dom.dfy`: the parsed document as an element tree. Each node carries its
  chain of ancestors. The module also holds the CSS selectors the engine uses
  (`a`, `a > b`, `a b`, `tag[attr="v"]`, selector lists), `querySelector(All)`
  in document order, `getDirectChild` and `findParentTab`.
- `actions.dfy`: `extractAllActions`, the catalog from action name to its
  Groovy and SQL fragments, and `concatenateGroovyScripts`.
- `events.dfy`: the parsing of `actionRef` lists and `extractEventsFromNode`.
- `templates.dfy`: `replaceTemplates` as written, with its regular-expression
  scan and `String.replace` substitution patterns, plus a corrected
  single-pass substitution.
- `grids.dfy`: the body of the grid loop of `parseXML`. It covers permissions
  and the `CheckAndSaveData` save lists, templates, `rpcExpand`, grid and field
  events, lists of values, comboboxes, `beforeCommitValidation` and the
  bottom-toolbar buttons.
- `form.dfy`: the rest of `parseXML`, namely `whenNewFormInstance`, the popups
  and the loop over every `grid` of the document.
- `sheets.dfy`: how the Excel export names the sheet of each grid.

Every loop of the source is a method whose loop is proved equal to a function
on the input, with one exception: the three-step loop over
`['insert', 'update', 'delete']` (script.js:136-146) is unrolled into three
calls in `Grids.ReadSaveLists`. The properties of the source are lemmas about
those functions.

## Model

| member | source | states |
|---|---|---|
| JsString.TrimSpec | script.js:143 | `trim()` removes exactly the leading and trailing white space: the result is an infix of the input, everything cut off is white space, and the result neither starts nor ends with white space |
| JsString.TrimIdempotent | script.js:143 | trimming an already trimmed text changes nothing |
| JsString.TrimOfTrimmed | script.js:143 | a text that neither starts nor ends with white space is its own trim |
| JsString.Split | script.js:288 | `split(',')` yields at least one piece, and no piece contains the separator |
| JsString.JoinSplit | script.js:288 | joining the pieces of `split` with the separator gives back the original text |
| JsString.SplitJoin | script.js:288 | splitting a join of separator-free pieces gives back the pieces |
| Dom.SelectMembership | script.js:130 | a node is selected exactly when it is a descendant that matches one of the selectors in the list |
| Dom.SelectAppend | script.js:130 | selection distributes over concatenation, which keeps document order |
| Dom.SelectFirst | script.js:137 | the first node a selector list selects is the first candidate that matches it, and no earlier candidate matches |
| Dom.QuerySelectorFinds | script.js:137 | `querySelector` returns null exactly when no descendant matches; otherwise it returns the first matching descendant in document order |
| Dom.ForestClosed | script.js:130 | a descendant of a document node is itself a node of the document |
| Dom.GetDirectChild | script.js:19-21 | `getDirectChild` finds nothing exactly when no child has the tag; otherwise it finds the first child with the tag |
| Dom.NearestTab | script.js:418-431 | the tab found is the closest `tab` ancestor with no `form` between it and the grid; nothing is found exactly when every `tab` ancestor lies beyond a `form` |
| Dom.FindParentTab | script.js:418-431 | the parent-walking loop of `findParentTab` returns the tab of the nearest such ancestor, or null |
| Actions.FragmentsForShape | script.js:369-394 | a class yields a Groovy fragment when it has a `groovy` param, then an SQL fragment when it has a `sql` param; both carry the class's name, type and fail message |
| Actions.PushClassFragments | script.js:369-394 | the body of the class loop appends exactly the fragments of that class |
| Actions.CollectFragments | script.js:366-395 | the class loop collects the fragments of every `classes > class`, in order |
| Actions.CatalogKeys | script.js:360-399 | an action name is in the catalog exactly when some action of that name has at least one fragment |
| Actions.CatalogLastWins | script.js:397-399 | when several actions share a name, the last one with fragments wins |
| Actions.CatalogUnchangedBy | script.js:361-399 | an action without a name or without fragments leaves the catalog unchanged |
| Actions.StoreAction | script.js:360-399 | one step of the action loop stores the action's fragments under its name, when both are non-empty |
| Actions.BuildCatalog | script.js:356-401 | the action loop builds the catalog of all the actions, in document order |
| Actions.ExtractAllActions | script.js:356-401 | `extractAllActions` returns the catalog of every `action` of the document |
| Actions.ResolveSound | script.js:433-445 | every resolved script is a referenced action that the catalog knows, with that action's classes |
| Actions.ResolveComplete | script.js:433-445 | every referenced action that the catalog knows is resolved |
| Actions.ResolveAppend | script.js:433-445 | resolving a concatenation of references resolves each part, in order |
| Actions.ResolveAllKnown | script.js:433-445 | when every reference is known, there is one script per reference, in order |
| Actions.ResolveNoneKnown | script.js:433-445 | when no reference is known, there are no scripts |
| Actions.ConcatenateGroovyScripts | script.js:433-445 | `concatenateGroovyScripts` returns exactly the resolution of the references |
| Events.SplitRefs | script.js:341 | an `actionRef` value yields at least one reference |
| Events.ParseActionRefs | script.js:339-342 | no references exactly when the `actionRef` attribute is missing or empty |
| Events.ParseActionRefsParts | script.js:339-342 | one reference per comma-separated piece, trimmed, holding no comma |
| Events.ParseActionRefsJoin | script.js:339-342 | parsing a comma-join of trimmed comma-free names gives back the names |
| Events.EventsOfShape | script.js:330-333 | with no direct `events` child there are no events; otherwise the events are those of the children of the first such child |
| Events.EventsInShape | script.js:334-351 | one event per child, in order, carrying the child's tag, `waitingWindow` and parsed references, the context unchanged, and only scripts of references the catalog knows |
| Events.EventsInAt | script.js:334-351 | the event at each position is the one the child at that position yields |
| Events.ExtractEvent | script.js:335-350 | the body of the event loop builds the event of one child element |
| Events.CollectEvents | script.js:334-351 | the event loop builds one event per child of `events`, in order |
| Events.ExtractEventsFromNode | script.js:330-354 | `extractEventsFromNode` returns the events of the node |
| Templates.NextAt | script.js:406 | the position found is the first `@`; nothing is found exactly when there is no `@` |
| Templates.PlaceholdersAreTokens | script.js:406 | every match of `/@([^@]+)@/g` is `@name@` with a non-empty name free of `@` |
| Templates.PlaceholdersFound | script.js:406-407 | the match list is non-empty exactly when the code contains some `@name@` |
| Templates.RemoveAt | script.js:409 | `replace(/@/g, '')` leaves no `@` |
| Templates.TokenName | script.js:409 | removing the `@`s of a placeholder gives its name |
| Templates.IndexFrom | script.js:411 | the occurrence found is the first at or after the start; nothing is found exactly when there is none |
| Templates.ExpandPlain | script.js:411 | a replacement without `$` is inserted verbatim |
| Templates.BannersLack | script.js:411 | the inserted banner holds an `@` or `$` only when the template's name or body does |
| Templates.ReplaceTemplates | script.js:403-416 | the loop over the placeholders computes `replaceTemplates` as written |
| Templates.ReplaceTemplatesUnchanged | script.js:403-416 | the code is returned unchanged when it is empty, when there is no map, when it has no placeholder, or when no placeholder names a non-empty template |
| Templates.ReplaceTemplatesReplacesOne | script.js:403-416 | a single placeholder of a non-empty template is replaced in place by the template wrapped in its banners |
| Templates.ReplaceFirstAt | script.js:411 | `replace(string, string)` replaces the first occurrence and expands `$` patterns |
| Templates.SubstituteInPlace | script.js:403-416 | the corrected substitution replaces a placeholder where it stands, leaving the text before it untouched |
| Templates.SubstituteUnchanged | script.js:403-416 | the corrected substitution changes nothing when no placeholder names a non-empty template |
| Templates.ReplaceTemplatesCorrectedUnchanged | script.js:403-416 | the corrected function keeps the same early returns as the source |
| Templates.ExpandMatchReference | script.js:411 | `$&` in a replacement stands for the matched placeholder |
| Templates.DollarPatternInBody | script.js:411 | as written, a body holding `$&` gets the placeholder itself spliced back in |
| Templates.DollarPatternExample | script.js:411 | `@T@` with `T` = `a$&b` becomes the banner around `a@T@b` |
| Templates.CorrectedKeepsDollar | script.js:411 | corrected, the body is inserted verbatim |
| Templates.ReplacementInsideInsertedBody | script.js:408-413 | as written, a later placeholder is replaced inside an earlier inserted body that mentions it, not where it stands |
| Templates.ReplacementInsideInsertedBodyExample | script.js:408-413 | `@A@@B@` with `A` = `@B@` and `B` = `x` leaves the second `@B@` unreplaced |
| Templates.CorrectedReplacesInPlace | script.js:408-413 | corrected, each placeholder of the code is replaced where it stands |
| Grids.TrimmedTexts | script.js:141-144 | one trimmed text per `value`, in order |
| Grids.CollectTrimmedTexts | script.js:142-144 | the value loop pushes the trimmed text of each `list[name=op] > value` |
| Grids.ReadSaveLists | script.js:136-146 | the save lists are null without a `CheckAndSaveData` class of a `save` action; otherwise they are the trimmed values of its `insert`, `update` and `delete` lists |
| Grids.Permission | script.js:153-155 | an explicit attribute is taken verbatim; otherwise the permission is `"true"` exactly when the save lists exist and the operation's list is non-empty, and `"false"` otherwise |
| Grids.GridPermission | script.js:132-155 | for each of insert, update and delete, the grid record's permission follows the attribute, else whether the first save class has a value for that operation, and is `"false"` for a grid without one |
| Grids.SavePermission | script.js:137-155 | without an attribute, a permission is `"true"` exactly when the save class exists and lists a value for the operation |
| Grids.ListPermission | script.js:140-155 | the permission drawn from one save class is `"true"` exactly when its list for the operation has a value |
| Grids.AllowedIsPermission | script.js:153-155 | each permission of the grid record is drawn from its own attribute and its own list |
| Grids.TemplatesInOverride | script.js:173-188 | collecting templates into a map overrides that map's entries |
| Grids.TemplatesInKeys | script.js:173-178 | a name is collected exactly when a `template` child has it as a non-empty `name`; the text is the trimmed text of such a template |
| Grids.TemplatesInLastWins | script.js:172-177 | of several templates with the same name in one block, the last one supplies the text, overwriting the earlier ones |
| Grids.GridTemplatesPrecedence | script.js:169-189 | the grid's templates are the `filter > templates` ones overridden by the direct `templates` ones |
| Grids.ReadTemplate | script.js:174-177 | one step of the template loop stores a named template's trimmed text |
| Grids.CollectTemplates | script.js:173-178 | the template loop collects every named `template` child |
| Grids.ReadTemplates | script.js:169-189 | the templates of the grid are read from both places |
| Grids.RpcExpandPriority | script.js:191-197 | `paginatedExpand > value` is preferred, then `expand > value`, then the first `value` (the result of `querySelector('value')`); nothing is found exactly when there is no `value` |
| Grids.RpcExpandFallbackFirst | script.js:193 | with neither a paginated nor a plain expand value, the value found is the first `value` element in document order |
| Grids.ReadRpcExpand | script.js:191-203 | `rpcExpand` and `rpcExpandInitOrderBy` are read from the direct `rpcExpand` child |
| Grids.ReadRpcExpandInit | script.js:205-211 | `rpcExpandInit` is read from the direct `rpcExpandInit` child |
| Grids.FieldEventsContext | script.js:217-222 | every field event carries the `name` of one of the fields |
| Grids.FieldEventsAppend | script.js:217-222 | the events of two runs of fields are those of the first run followed by those of the second |
| Grids.FieldEventsContextAt | script.js:217-222 | the `j`th event of field `k` sits right after the events of the fields before it, is that field's own `j`th event, and carries that field's `name` |
| Grids.GridEventsContext | script.js:213-222 | the grid's own events come first and carry no context |
| Grids.FieldEventsStep | script.js:218-222 | pushing one field's events extends the collected events by exactly that field's events |
| Grids.PushFieldEvents | script.js:219-221 | the body of the field loop appends that field's events |
| Grids.CollectFieldEvents | script.js:217-222 | the field loop appends the events of every `fields > *`, in order |
| Grids.LovValueFound | script.js:232-235 | a list of values has no value exactly when no value element is under its `rpcExpand`; otherwise its value is the trimmed text of the first such element in document order |
| Grids.ExtractLov | script.js:225-240 | the body of the list-of-values loop |
| Grids.CollectLovs | script.js:224-241 | the list-of-values loop reads every `fields > listOfValue` |
| Grids.ComboSelectorSubsumed | script.js:243 | `filter > fields > combobox` adds nothing to `fields > combobox` |
| Grids.CollectRows | script.js:252-259 | one row per `rpcExpand > resultset > row`, with untrimmed `id` and `label`, `''` when absent |
| Grids.ExtractCombo | script.js:244-266 | the body of the combobox loop |
| Grids.CollectCombos | script.js:243-267 | the combobox loop reads every combobox |
| Grids.ValidationSql | script.js:273 | a validation's `sql` is empty exactly when its `sql` param is missing or blank |
| Grids.ValidationsInAt | script.js:269-277 | the validation at each position is the one the `beforeCommitValidation` at that position yields |
| Grids.CollectValidations | script.js:269-277 | the validation loop reads every `beforeCommitValidation` |
| Grids.ButtonLabel | script.js:314 | `label || hint`: the label unless it is missing or empty |
| Grids.ButtonsShape | script.js:281-321 | every button is a `button` or a `callFormButton`; only a `callFormButton` names a called form; its scripts are referenced actions the catalog knows |
| Grids.CollectCallParams | script.js:302-308 | one parameter per `param`, in order |
| Grids.ReadParamsList | script.js:299-309 | the parameters of the first `paramsList` |
| Grids.ReadButtonRefs | script.js:283-290 | the references of the first `events > whenButtonPressed` |
| Grids.ExtractButton | script.js:282-320 | the body of the button loop |
| Grids.ButtonsInAt | script.js:281-321 | the button record at each position is the one the button element at that position yields |
| Grids.CollectButtons | script.js:281-321 | the button loop reads every button of the toolbar |
| Grids.ReadButtons | script.js:279-322 | the buttons come from the direct `bottomToolbar` child only |
| Grids.ExtractGrid | script.js:131-324 | the body of the grid loop builds the whole grid record |
| Form.WhenNewShape | script.js:83-90 | the start-up references are empty exactly when there is no `form > events > whenNewFormInstance` or its `actionRef` is empty; the scripts are exactly the known referenced actions |
| Form.ReadWhenNew | script.js:83-90 | the references and scripts of `whenNewFormInstance` |
| Form.PopupShape | script.js:96-126 | without a `callFormPopup` a popup names no form and has no parameters; with one, the name is the trimmed `callFormName`; the grid list names each `grids > grid`, in order |
| Form.CollectGridNames | script.js:122-125 | one name per referenced grid |
| Form.ExtractPopup | script.js:93-127 | the body of the popup loop |
| Form.CollectPopups | script.js:92-128 | the popup loop reads every `form > popups > popup` |
| Form.CollectGrids | script.js:130-325 | the grid loop reads every `grid` |
| Form.GridsInAt | script.js:130-325 | the record at each position is the one the `grid` at that position yields |
| Form.ParseXml | script.js:60-328 | `parseXML` builds the catalog, the start-up actions, the popups and the grids |
| Form.FormGrids | script.js:130-325 | one grid record per `grid` element of the document, in document order |
| Form.PopupReferencesAreGrids | script.js:122-131 | every `grids > grid` reference inside a popup also gets a full grid record, named as the popup lists it |
| Sheets.StripForbiddenChars | script.js:1039 | a character survives the stripping exactly when it is not one of `[ ] * / \ ?` |
| Sheets.StripForbiddenClean | script.js:1039 | a name without those characters is unchanged |
| Sheets.Truncate | script.js:1040 | `substring(0, n)` is a prefix of at most `n` characters, and the whole text when it is short enough |
| Sheets.BaseSheetName | script.js:1039-1040 | the base name has at most 31 characters and none of the forbidden ones |
| Sheets.DecInjective | script.js:1044-1047 | different counters are written differently |
| Sheets.CandidateInjective | script.js:1044-1047 | different counters give different candidate names |
| Sheets.Pigeonhole | script.js:1044-1046 | the counter loop runs at most once per existing sheet |
| Sheets.Counter | script.js:1043-1047 | the counter is the least one whose candidate name is free |
| Sheets.SheetNameChosen | script.js:1039-1048 | the chosen name is new to the workbook and free of forbidden characters; it is the base name when that is free, else the candidate with the least free counter |
| Sheets.UniqueSheetName | script.js:1039-1048 | the naming code computes that name, and fails for a grid without a name |
| Sheets.AsWrittenNameFits | script.js:1038-1048 | as written, the name fits 31 characters while the counter stays below 100 |
| Sheets.AsWrittenNameOverflows | script.js:1038-1048 | as written, the 100th suffixed name of a long grid name has 32 characters |
| Sheets.AsWrittenOverflowExample | script.js:1038-1048 | a 28-letter grid name that is taken along with its first 99 variants gets a 32-character sheet name |
| Sheets.FittedNameFits | script.js:1038-1048 | with the stem shortened to make room for the counter, the name fits 31 characters |
| Sheets.SheetsAfterDistinct | script.js:938-1051 | naming fails exactly when a grid has no name; otherwise the workbook gains one sheet per grid and its names stay distinct, with `book_append_sheet` taken to append the name verbatim |
| Sheets.NameSheets | script.js:938-1051 | the export's loop over the grids names each sheet against the sheets already appended |
| Sheets.ExportSheets | script.js:910-1051 | the export gets one distinct sheet per grid after the `WNFI` sheet, which exists only when there are start-up actions, with `book_append_sheet` taken to append the name verbatim |

## Left out

- Parsing is not modelled: `DOMParser` and the `parsererror` check are left out. The model starts from the parsed element tree, and `textContent` is a field of each element rather than being computed from its children.
- The description comment is not modelled: the regular expression over the raw XML text is left out, and its outcome is an input to `Form.ParseXml`.
- Loading files, rendering the HTML, the section toggles, the clipboard, the global `currentData` and the cell contents of the Excel sheets are left out, because they are I/O or UI. The XLSX library is not part of this model. Of the export, only the sheet names are modelled.
- JavaScript objects are modelled as maps. An action or template named like an `Object.prototype` member, such as `constructor`, behaves differently in the source.
- Lengths are counted in characters, not in UTF-16 code units. `substring` and the 31-character limit differ from the source for text outside the Basic Multilingual Plane.
- Templates.ReplaceTemplates: `code` is a string, so the `null`/`undefined` input of `!code` is not modelled, only the empty string. `replaceTemplates` has no caller in `script.js`, so it is modelled on its own.
- Sheets.SheetsAfterDistinct, Sheets.ExportSheets: `XLSX.utils.book_append_sheet` (script.js:1050) is taken to append the given name verbatim and never to fail. The library is not part of this model. As it is documented, it gives an empty name a generated `SheetN` name instead, and it rejects a name that contains `:` or has more than 31 characters. The strip at script.js:1039 keeps `:`. So for a grid named `""`, a name with `:` or the 32-character names of the third finding, the real export renames the sheet or stops with an error, while the model appends the name.
- Sheets.FittedNameFits: states the 31-character bound only for workbooks with fewer than 10^9 sheets, because the counter's digits must leave room within 31 characters.

## Findings

| source | as written | input that shows it | evidently intended | confidence | as-written member | corrected member |
|---|---|---|---|---|---|---|
| script.js:411 | the template body is passed as the replacement string of `String.replace`, so `$&`, `$$`, `` $` `` and `$'` in it are interpreted | code `@T@` with template `T` = `a$&b` gives the banner around `a@T@b` | insert the body verbatim | not executed | Templates.DollarPatternExample | Templates.CorrectedKeepsDollar |
| script.js:408-413 | each placeholder of the original code replaces the first occurrence in the current result, which can lie inside a body inserted earlier | code `@A@@B@` with `A` = `@B@` and `B` = `x` replaces the `@B@` inside `A`'s body and leaves the code's own `@B@` unreplaced | replace each placeholder where it stands in the code | not executed | Templates.ReplacementInsideInsertedBodyExample | Templates.CorrectedReplacesInPlace |
| script.js:1043-1047 | a colliding name keeps 28 characters before `_<counter>`, so from counter 100 on the name has 32 characters, beyond the 31 the comment at line 1038 states | a 28-letter grid name with the name and its `_1` … `_99` variants already in the workbook | shorten the stem to leave room for the counter | not executed | Sheets.AsWrittenOverflowExample | Sheets.FittedNameFits |
