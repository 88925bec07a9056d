# NintexToPowerAutomate, modelled in Dafny

`nintexintrospector.py` reads a Nintex workflow document and hands each
`NWActionConfig` action to a text-generation model, one action at a time.
The model is asked for the equivalent Power Automate action. The class
`NintexToPowerAutomate` does six things:

- It builds a child-to-parent index over the whole document (`load_workflow`).
- It resolves each action's parent id (`find_parent_action`).
- It extracts the action's id, name, type and named `property` elements
  (`extract_action_properties`).
- It calls the backend and repairs the generated text into something that
  looks like a JSON object, with one retry after removing line breaks
  (`generate_response`, `process_single_action`).
- It accumulates the results into a flat map `processed_actions` and a
  parent-keyed tree `action_tree` (`build_action_tree`).
- It reports both maps together (`process_workflow`).

The project has these modules:

- `ElementTree` (`element_tree.dfy`) is the parsed document.
  - It is a flat sequence of elements. Identity is the index, node 0 is the
    root, and each element lists its children by index.
  - `WellFormed` states the shape a parsed tree always has.
  - `Subtree`/`Forest` give document order (`iter()`), and `FindAll` is
    `findall('.//tag')`.
  - `ParentMap` is the dictionary comprehension of line 76, written as a
    fold. It is proved to map every non-root element to its structural
    parent.
- `Text` (`text.dfy`) holds the Python string operations the repair uses:
  - `strip()`, using Python's whitespace set;
  - `split('{', 1)`;
  - `endswith`;
  - `replace`.
- `ActionExtractor` (`action_extractor.dfy`) holds the action record. It
  has one loop, proved against the fold `PropertiesOf`.
- `Translation` (`translation.dfy`) covers the backend call, the brace
  repair, the parse with its one retry, and the error record. The backend,
  the prompt template and `json.loads` are parameters, collected in an
  `Engine`.
- `Introspector` (`introspector.dfy`) holds parent resolution and the
  class with its three mutable maps. Its loop is proved against two folds:
  - `Record` models `processed_actions`.
  - `Attach` models `action_tree`.

  An independent reference, `Under`, describes each parent's list.
- `Scenarios` (`scenarios.dfy`) states what the model yields on two
  concrete documents: an action nested in a wrapper element, and a
  two-action workflow with a stub backend.

Three behaviours of the code are worth stating outright:

- **Parent resolution.** Parent resolution looks only at the immediate
  parent (lines 175-180). In `root → A → wrapper → B`, B resolves to
  `'root'` even though A encloses it.
  `Scenarios.WrapperHidesEnclosingAction` states this.
- **Text after the object.** The repair keeps everything after the first
  `{` (lines 147-149). For the raw output `"  {\"foo\": 1}\nextra"` the
  text it parses is `{"foo": 1}\nextra}`, with the stray text still in it.
  `Translation.TrailingTextExample` states this.
- **Extraction does not fail on a parsed tree.** Inside the `try` of
  `extract_action_properties` (lines 95-115) only the logging can raise,
  so the model has no path for the partial record `{id, error}` of lines
  117-122.

## Model

| member | source | states |
|---|---|---|
| ElementTree.Subtree | nintexintrospector.py:76 | the traversal from an element starts at that element and visits only that element and elements after it in the document |
| ElementTree.FindAll | nintexintrospector.py:101 | `findall('.//tag')` returns exactly the descendants at any depth that carry the tag, all strictly after the starting element |
| ElementTree.WithTag | nintexintrospector.py:101 | the tag filter keeps exactly the listed elements that carry the tag, and nothing else |
| ElementTree.LinkChildren | nintexintrospector.py:76 | linking one parent's children maps each child to that parent, adds exactly those keys, and keeps every other entry |
| ElementTree.ParentLinks | nintexintrospector.py:76 | every parent stored by the comprehension is an element of the document |
| ElementTree.ParentMap | nintexintrospector.py:76 | every parent in the child-to-parent index is an element of the document |
| ElementTree.Reachable | nintexintrospector.py:76 | `root.iter()` visits every element of a well-formed document |
| ElementTree.IterCovers | nintexintrospector.py:76 | `root.iter()` starts at the root and visits exactly the elements of a well-formed document |
| ElementTree.RootDescendants | nintexintrospector.py:193 | the descendants of the root, which `findall('.//…')` searches, are every element except the root |
| ElementTree.WithTagConcat | nintexintrospector.py:101 | the tag filter distributes over concatenation, so the selected elements keep the document order of the traversal |
| ElementTree.ParentLinksSound | nintexintrospector.py:76 | over any traversal order, the comprehension has a key exactly for the children of the visited elements, and maps each to a structural parent |
| ElementTree.ParentMapKeys | nintexintrospector.py:76 | the index has a key for every element except the root, and for nothing else |
| ElementTree.ParentMapShape | nintexintrospector.py:76 | the index has one entry per non-root element and sends each element to its immediate structural parent |
| Text.Strip | nintexintrospector.py:36 | `strip()` returns a contiguous slice with no white space at either end, and everything cut off is white space |
| Text.StripIdempotent | nintexintrospector.py:36 | stripping a stripped text changes nothing |
| Text.SplitFirst | nintexintrospector.py:147 | `split('{', 1)` gives one part equal to the text when there is no `{`; otherwise it gives a part free of `{` and the rest, which join back to the text around the first `{` |
| Text.RemoveChar | nintexintrospector.py:157 | `replace(c, '')` leaves no `c`, adds no character and never lengthens the text |
| Text.RemoveCharConcat | nintexintrospector.py:157 | removing a character distributes over concatenation |
| Text.RemoveCharAbsent | nintexintrospector.py:157 | removing a character that does not occur changes nothing |
| Text.StripLineBreaks | nintexintrospector.py:157 | after the two replacements no `\n` or `\r` remains, and the text is no longer than before |
| Text.StripLineBreaksAbsent | nintexintrospector.py:157 | a text without line breaks is retried unchanged |
| Text.StripLineBreaksConcat | nintexintrospector.py:157 | removing line breaks distributes over concatenation |
| ActionExtractor.ExtractActionProperties | nintexintrospector.py:90-115 | the loop over the `property` elements computes the record `ActionDataOf`: attribute defaults and the fold of the named properties |
| ActionExtractor.PropertiesKeys | nintexintrospector.py:101-106 | the properties map has a key exactly for each non-empty property name in the list |
| ActionExtractor.PropertiesLastWins | nintexintrospector.py:101-106 | a name holds the text of the last property carrying it, with a missing text read as `''` |
| ActionExtractor.ActionDataShape | nintexintrospector.py:101-113 | `id`, `name` and `type` default to `''`; the properties are exactly the named `property` elements anywhere below the action |
| Translation.GenerateResponse | nintexintrospector.py:25-39 | the response is the stripped backend output, or `''` when the backend raises, and is always stripped |
| Translation.Repair | nintexintrospector.py:147-149 | the repaired text starts with `{` and ends with `}` |
| Translation.RepairContent | nintexintrospector.py:147-149 | the repaired text is `{`, then everything after the first `{` (the whole response if there is none), then `}` unless that already ends in one |
| Translation.RepairIdempotent | nintexintrospector.py:147-149 | repairing a repaired text changes nothing |
| Translation.TextAfterBraceKept | nintexintrospector.py:147-149 | text before the first `{` is dropped and all text after it is kept, including text after a closing brace |
| Translation.RetryKeepsBraces | nintexintrospector.py:154-158 | the retried text still starts with `{` and ends with `}` |
| Translation.ParseWithRetry | nintexintrospector.py:151-159 | the parse succeeds exactly when the first parse returns a value, or it fails to decode and the parse without line breaks returns one; the result is that value, and a failure carries the message of the parse that failed last |
| Translation.RetryWithoutLineBreaks | nintexintrospector.py:154-158 | when the repaired text has no line breaks, a decode error on the first parse is final |
| Translation.ProcessSingleAction | nintexintrospector.py:161-168 | `process_single_action` never raises, and its error record carries the action data unchanged |
| Translation.ErrorMessage | nintexintrospector.py:151-166 | the error message is the fixed prefix followed by the message of the parse that failed last: the retry's after a decode error, the first parse's otherwise |
| Translation.TranslationSucceeds | nintexintrospector.py:143-168 | the result is a value exactly when the repaired text parses, or fails to decode and parses without line breaks, and it is that value; otherwise it is the error record |
| Translation.EmptyResponseIsEmptyObject | nintexintrospector.py:147-152 | an empty response repairs to `{}` and gives the empty object, not the error record |
| Translation.BackendFailureIsEmptyObject | nintexintrospector.py:37-39 | a backend that raises gives the empty object, not the error record |
| Translation.StripExample | nintexintrospector.py:36 | `"  {\"foo\": 1}\nextra".strip()` drops the two leading blanks |
| Translation.RepairExample | nintexintrospector.py:147-149 | the repair of `{"foo": 1}\nextra` is `{"foo": 1}\nextra}` |
| Translation.TrailingTextExample | nintexintrospector.py:143-149 | for the raw output `"  {\"foo\": 1}\nextra"` the first parse sees `{"foo": 1}\nextra}` |
| Introspector.FindParentOfChild | nintexintrospector.py:170-183 | `FindParentAction`, with the index from `load_workflow`: a child resolves to its immediate parent's id (`''` when absent) if that parent is `NWActionConfig`, and to `'root'` otherwise |
| Introspector.FindParentOfRoot | nintexintrospector.py:175-180 | the root, or an element the index does not know, resolves to `'root'` |
| Introspector.ActionsExactly | nintexintrospector.py:193 | `root.findall('.//NWActionConfig')` lists exactly the `NWActionConfig` elements other than the root |
| Introspector.StepsAt | nintexintrospector.py:196-205 | the loop visits one step per action, and the i-th step holds the i-th action's id, resolved parent and translation |
| Introspector.LastActionWins | nintexintrospector.py:196-209 | under a repeated id, `processed_actions` holds the translation of the last action carrying it |
| Introspector.ActionUnderItsParent | nintexintrospector.py:196-220 | every action with a non-empty id is listed, with its translation, under the parent that `find_parent_action` names for it |
| Introspector.RecordKeys | nintexintrospector.py:208-209 | `processed_actions` holds exactly the old keys and the non-empty ids of the visited actions |
| Introspector.RecordLastWins | nintexintrospector.py:208-209 | with a repeated id, the last action carrying it wins |
| Introspector.RecordUntouched | nintexintrospector.py:208-209 | keys no visited action names keep their old value |
| Introspector.AttachSpec | nintexintrospector.py:212-220 | each parent's list is its old list followed, in document order, by the entries of the visited actions with a non-empty id under that parent |
| Introspector.AttachKeys | nintexintrospector.py:212-217 | a parent key is present exactly when it was before or some visited action with a non-empty id names it |
| Introspector.NintexToPowerAutomate.constructor | nintexintrospector.py:21-23 | a new instance starts with the three maps empty |
| Introspector.NintexToPowerAutomate.LoadWorkflow | nintexintrospector.py:41-88 | a loaded document is returned and the parent index is rebuilt from it; a missing or unreadable one gives `None` and leaves the index as it was |
| Introspector.NintexToPowerAutomate.VisitAction | nintexintrospector.py:196-222 | one iteration folds that action's step into both maps; an action with an empty id changes neither |
| Introspector.NintexToPowerAutomate.BuildActionTree | nintexintrospector.py:185-228 | both instance maps advance by the steps of all actions, in document order, without being reset; the returned tree is the instance's tree |
| Introspector.NintexToPowerAutomate.ProcessWorkflow | nintexintrospector.py:230-256 | a document that fails to load gives the error with two empty maps and changes nothing; otherwise the parent index is rebuilt and the result holds both maps after building |
| Scenarios.WrapperHidesEnclosingAction | nintexintrospector.py:170-180 | in `root → A → wrapper → B`, B resolves to `'root'`, the wrapper to `A`, and A to `'root'` |
| Scenarios.SmallDocOuterData | nintexintrospector.py:101-113 | for a concrete action with two properties, the extracted record holds both, by name |
| Scenarios.StubTranslates | nintexintrospector.py:143-159 | a backend answering `{"stub": true}` yields the parsed value for every action |
| Scenarios.TwoSteps | nintexintrospector.py:208-220 | two actions with distinct ids under distinct parents are each recorded and each listed under its own parent |
| Scenarios.EndToEnd | nintexintrospector.py:185-228 | for a concrete workflow and the stub backend, `outer` goes under `'root'` and `inner` under `outer`, and both appear in `processed_actions` |

## Left out

- Model loading (lines 13-20) and sampling (temperature, token limit, `stop=["}"]`) are left out. The backend is a parameter, a deterministic function from prompt to output, with `None` standing for an exception. The stop sequence is why outputs usually lack the closing `}` that the repair appends.
- The prompt's wording and the `json.dumps` of the action inside it (lines 131-140) are the `prompt` parameter.
- `json.loads` is a parameter that returns a value, a decode error or another error. The JSON grammar is not modelled.
- Reading the file and parsing markup (lines 49-60) are left out. `LoadSource` stands for the three outcomes: `Missing` (the path does not exist), `Malformed` (a `ParseError` or an unexpected exception) and `Loaded`.
- The listing of actions printed by `load_workflow`, the 500-character snippet printed on a parse error, and every other `print` are left out.
- LoadWorkflow: a loaded document must be `WellFormed`. A parsed tree always has this shape, and the flat index representation states it explicitly.
- The `except` branches of `extract_action_properties` (lines 117-122), `find_parent_action` (lines 181-183) and `build_action_tree` (lines 224-225) are not modelled. In the code only logging can raise inside those `try` blocks.
- Python dictionaries keep insertion order; Dafny maps do not. The order of each parent's list in `action_tree` is modelled, but the order of keys in `processed_actions`, `action_tree` and the properties map is not.
- Property order in the prompt: `json.dumps` (line 136) writes the properties in insertion order, and a repeated name keeps the position of its first occurrence. The `prompt` parameter receives a map, so the model's prompt cannot depend on that order.
- Aliasing of the result: `process_workflow` returns the instance dictionaries themselves (lines 245-250), so a later call that adds to them also changes a result returned earlier. `ProcessWorkflow` returns the values of the maps at the time of return.
- In Python the error record is an ordinary dictionary. A translated object that happens to have `error` and `original_action` keys looks the same as it. The model keeps the two apart (`Translated`).
- ProcessSingleAction: its contract states only that the error record carries the action. How the result depends on the parse outcomes is stated by `Translation.TranslationSucceeds`.
- The message text of a parser exception (`str(e)`) is whatever the `parse` parameter reports.
- `downloadModel.py` is not part of this model.
