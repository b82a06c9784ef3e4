# EasyApply form discovery and fill engine, in Dafny

EasyApply is a browser extension that fills in job application forms. It does four things:

- It scans the forms of the page in the active tab. For each form it records an id and, for each field, its id, name, a nearby label text, its type and its placeholder.
- It sends the page text and a stored user profile to a language model. The model answers with one value per field.
- It writes those values back into the page.
- It keeps a list of profiles in extension storage.

This project models the core of that engine and proves properties of the model.

| module | file | what it models |
|---|---|---|
| `JsText` | `js_text.dfy` | The JavaScript string operations the core relies on: `trim`, `Number` used as an array index, `toString` of an index, and `length` counted in UTF-16 code units. |
| `Dom` | `dom.dfy` | The page as a tree of element and text nodes addressed by child-index paths. It also covers first-in-tree-order search (`querySelector`, `getElementById`, a text tree walker), `document.forms` and `form.elements`. |
| `CssSelector` | `css_selector.dfy` | The id escaper of the fill script. It also models how a browser reads the two selectors the script builds: `#<escaped id>` and `[name="<name>"]`. |
| `LabelResolver` | `label_resolver.dfy` | `searchLabelUpwards`, a loop over siblings and ancestors written as a method. It is proved against a recursive specification. It also models the first run of letters in the label text. |
| `FormScanner` | `form_scanner.dfy` | `findFormsV2`, as nested loops proved against `DescribeForms`, and the older `findForms`. A lemma relates the two. |
| `FillRun` | `fill_run.dfy` | The `forEach` of the fill script once each record's element is known. Each write dispatches an `input` and a `change` event. The first exception ends the run and keeps the earlier writes. |
| `FormFiller` | `form_filler.dfy` | The per-record chain label, then id, then name, and the form lookup. The class `Page` holds the element values, the form borders, the dispatched events and the scroll target. Its methods are `Fulfill`, the fill script, and `HighlightFormById`. |
| `FulfillHook` | `fulfill_hook.dfy` | `useFulfillForm`: the field filter, the cut of the job description, the classification of model replies, and the class `Hook`. `Hook.FulfillForm` runs the whole `fulfillForm` pipeline. |
| `Profiles` | `profiles.dfy` | Profile validation (the `min(4)` rules), the `onSubmit` guards, the `saveProfile` upsert, and the delete and load rules of the profile list. |

The page tree never changes in the model. The fill script writes only into `Page.values`, a map from element paths to values, and the highlighter writes only into `Page.borders`. Attributes that may be absent are `Option`s. The code reads most of them through properties that turn an absent attribute into the empty string, so there the two cases agree. The `name` attribute is an exception: `[name=""]` selects an element whose name is empty but not one without a name. A stored profile's `id` is one too. The edit test treats an absent id and an empty one alike, since both are falsy. They differ only when a new entry is built: the generated id is written first, and a profile's own `id` key, even an empty one, then overrides it.

Some of the proved behaviour is not what a reader of the escaper would expect:

- The backslash is not in the escaper's reserved set. An id such as `a\b` is therefore read as a CSS hex escape and selects another id (`IdSelectorBackslash`).
- An id that starts with a digit gives a selector that does not parse. The fill script then catches the exception and reports failure (`DigitIdThrows`).
- A double quote in a field name ends the attribute string early. The modelled CSS reader rejects every such selector, so the record throws and the fill reports failure (`QuoteInNameFailsFill`). A browser accepts a few of these names; see `CssSelector.NameSelectorQuote` under "## Left out".
- Escaping an already escaped string changes it again exactly when the string holds a reserved character (`EscapeIdempotentIff`).

The colon `:` is in the reserved set in the code. The model follows the code.

## Model

| member | source | states |
|---|---|---|
| JsText.TrimStart | entrypoints/popup/scripts/index.ts:44 | The result is a suffix of the input. It does not start with white space, and everything removed is white space. |
| JsText.TrimEnd | entrypoints/popup/scripts/index.ts:44 | The result is a prefix of the input. It does not end with white space, and everything removed is white space. |
| JsText.TrimEmpty | entrypoints/popup/scripts/index.ts:44 | `id.trim() !== ""` fails exactly when the id is all white space. |
| JsText.NatToString | entrypoints/popup/scripts/index.ts:162 | `index.toString()` is a non-empty string of decimal digits with no leading zero, and its value is the index. |
| JsText.ParseIndex | entrypoints/popup/scripts/index.ts:27 | `Number(formId)` gives an index exactly when the trimmed string is blank or all decimal digits. A blank string gives 0, and digits give their decimal value. |
| JsText.ParseIndexOfNatToString | entrypoints/popup/scripts/index.ts:162 | An index label written by the scanner reads back as the same index in the form lookup. |
| JsText.Utf16Length | entrypoints/popup/components/tabs/CreateProfile.tsx:277-279 | A string's length in UTF-16 code units is its number of characters plus the number of them outside the Basic Multilingual Plane. It is therefore between the number of characters and twice that number. |
| Dom.FirstMatchCorrect | entrypoints/popup/scripts/index.ts:8-23 | The first match in tree order is a match, and no match comes before it. If there is none, nothing in the tree matches. |
| Dom.QueryDescendantCorrect | entrypoints/popup/scripts/index.ts:50 | `querySelector` on an element returns its first matching strict descendant in tree order, or nothing when no descendant matches. |
| Dom.AllMatchesSound | entrypoints/popup/scripts/index.ts:78 | Every node listed by a whole-tree search matches the query. |
| Dom.AllMatchesComplete | entrypoints/popup/scripts/index.ts:78 | Every matching node that the search reaches is listed. For `form.elements` the search does not enter a nested form. Every other query reaches every node. |
| Dom.AllMatchesOrdered | entrypoints/popup/scripts/index.ts:78 | The search lists its nodes in strictly increasing tree order. |
| Dom.FormsExact | entrypoints/popup/scripts/index.ts:78 | `document.forms` lists exactly the form elements of the page. |
| Dom.FormsOrdered | entrypoints/popup/scripts/index.ts:154 | `document.forms` is in document order and lists each form once. |
| Dom.ListedElementsSound | entrypoints/popup/scripts/index.ts:166 | Every member of `form.elements` is a listed control strictly inside the form. |
| Dom.ListedElementsComplete | entrypoints/popup/scripts/index.ts:166 | Every listed control strictly inside the form, and not inside a form nested in it, is a member of `form.elements`. |
| CssSelector.EscapeLength | entrypoints/popup/scripts/index.ts:45-48 | The escaped id is longer than the id by exactly the number of reserved characters in it. |
| CssSelector.EscapeIdentity | entrypoints/popup/scripts/index.ts:45-48 | The escaper leaves a string unchanged if and only if the string has no reserved character. |
| CssSelector.EscapeConcat | entrypoints/popup/scripts/index.ts:45-48 | The escaper works character by character: escaping a concatenation concatenates the escapes. |
| CssSelector.EscapeChar | entrypoints/popup/scripts/index.ts:45-48 | A reserved character becomes a backslash followed by that character. Any other character is kept. |
| CssSelector.EscapeKeepsReserved | entrypoints/popup/scripts/index.ts:45-48 | The escaped id has as many reserved characters as the id, because the inserted backslash is not reserved. |
| CssSelector.EscapeIdempotentIff | entrypoints/popup/scripts/index.ts:45-48 | Escaping twice equals escaping once exactly when the id has no reserved character. |
| CssSelector.ConsumeNameOfEscape | entrypoints/popup/scripts/index.ts:45-50 | A CSS reader takes an escaped string of name and reserved characters back to the original string. |
| CssSelector.IdSelectorRoundTrip | entrypoints/popup/scripts/index.ts:45-50 | Take an id made only of name and reserved characters. Its first character must be an identifier start or a reserved character, or a hyphen followed by one of those or by a second hyphen. Then `#` followed by the escaped id selects exactly that id. Examples are `user;name` and `-a`. |
| CssSelector.IdSelectorDigitStart | entrypoints/popup/scripts/index.ts:45-50 | For an id that starts with a digit, the selector does not parse. |
| CssSelector.IdSelectorBackslash | entrypoints/popup/scripts/index.ts:45-50 | The id `a\b` is not escaped. Its selector selects the id `a` followed by U+000B, not `a\b`. |
| CssSelector.PreprocessConcat | entrypoints/popup/scripts/index.ts:50-54 | CSS input preprocessing of a concatenation is the concatenation of the preprocessed parts, unless the second part starts with the LF of a CR LF pair. |
| CssSelector.PreprocessNoNewline | entrypoints/popup/scripts/index.ts:54 | On text without newlines, preprocessing keeps the length and only turns each U+0000 into U+FFFD. |
| CssSelector.PreprocessClean | entrypoints/popup/scripts/index.ts:50-54 | Text with no U+0000, CR or FF is unchanged by preprocessing. |
| CssSelector.EscapeUnchangedByPreprocess | entrypoints/popup/scripts/index.ts:45-50 | The escaped form of an id made of name and reserved characters is unchanged by preprocessing. |
| CssSelector.ConsumeStringPlain | entrypoints/popup/scripts/index.ts:54 | A quoted CSS string without quote, backslash or newline reads back as its contents. |
| CssSelector.NameSelectorRoundTrip | entrypoints/popup/scripts/index.ts:54 | A name without quote, backslash or newline gives an attribute selector that selects its preprocessed text: the name itself when it has no U+0000. |
| CssSelector.NameSelectorNul | entrypoints/popup/scripts/index.ts:54 | The name `a` followed by U+0000 selects the name `a` followed by U+FFFD, so an element named with the NUL is not found. |
| CssSelector.NameSelectorTrailingBackslash | entrypoints/popup/scripts/index.ts:54 | A name ending in a backslash escapes the closing quote. The end of the selector closes the string and the bracket, so the name `a\` selects the name `a"]` and the selector does not throw. |
| CssSelector.NameSelectorQuote | entrypoints/popup/scripts/index.ts:54 | In the modelled reader, a name with a double quote before any backslash or newline gives a selector that does not parse. |
| LabelResolver.SearchLabelUpwards | entrypoints/popup/scripts/index.ts:133-153 | The loop over previous siblings and parents returns what the recursive specification `LabelUpwards` returns. |
| LabelResolver.PrevLabelSiblingSpec | entrypoints/popup/scripts/index.ts:141-147 | The sibling scan finds the nearest earlier sibling that is a label. If it finds none, no earlier sibling is a label. |
| LabelResolver.LabelUpwardsFound | entrypoints/popup/scripts/index.ts:133-153 | A label the search returns is the element itself, an ancestor, or an earlier sibling of one of them. It is the nearest such label in search order. |
| LabelResolver.LabelUpwardsNone | entrypoints/popup/scripts/index.ts:133-153 | When the search returns nothing, neither the element nor any ancestor is a label, and no earlier sibling of any of them is. |
| LabelResolver.LetterRunSpec | entrypoints/popup/scripts/index.ts:174 | A letter run is a maximal prefix made only of ASCII letters. |
| LabelResolver.FirstLetterRunSpec | entrypoints/popup/scripts/index.ts:174 | There is no match exactly when the text has no ASCII letter. Otherwise the match is a maximal letter run that occurs in the text. |
| FormScanner.FindFormsV2 | entrypoints/popup/scripts/index.ts:123-186 | The nested loops return one descriptor per form of the page, in order, each equal to `DescribeForm`. |
| FormScanner.DescribeForms | entrypoints/popup/scripts/index.ts:154-185 | The list has one entry per scanned form, and entry `i` describes form `i`. |
| FormScanner.ScanForm | entrypoints/popup/scripts/index.ts:156-183 | The body of the outer loop builds `DescribeForm` for the form at that index. |
| FormScanner.ScanFormFields | entrypoints/popup/scripts/index.ts:166-182 | The inner loop collects the scanned fields of `form.elements`, in order. |
| FormScanner.ScanField | entrypoints/popup/scripts/index.ts:167-181 | One element contributes its descriptor if it is scanned, and nothing otherwise. |
| FormScanner.ScannedFieldsSpec | entrypoints/popup/scripts/index.ts:166-182 | The scanned fields are exactly the listed elements that pass the filter, in order, each described from its own element. |
| FormScanner.NoExcludedField | entrypoints/popup/scripts/index.ts:124-132 | No scanned field has an excluded type: radio, checkbox, file, button, submit, reset or hidden. |
| FormScanner.DescribeFormSpec | entrypoints/popup/scripts/index.ts:156-183 | A form's descriptor id is the form's non-empty id attribute, otherwise its index as text. Its fields are the scanned inputs and textareas inside the form, in order, each described from its own element. |
| FormScanner.DescribeFormComplete | entrypoints/popup/scripts/index.ts:164-182 | Every input or textarea of a kept type inside the form has a descriptor in the form's scan. Image inputs and controls inside a nested form are the exceptions. |
| FormScanner.WithoutLabels | entrypoints/popup/scripts/index.ts:96-117 | The first scanner describes the same fields, each with an empty label. |
| FormScanner.FieldsV1AsV2 | entrypoints/popup/scripts/index.ts:96-117 | The first scanner's fields are the second scanner's fields with every label cleared. |
| FormScanner.FindFormsAgree | entrypoints/popup/scripts/index.ts:92-121 | `findForms` and `findFormsV2` agree on the number of forms and on each form's id and action. They differ only in the labels. |
| FillRun.RunAttemptsAbortKeeps | entrypoints/popup/scripts/index.ts:33-74 | Once a record throws, the run ends and keeps the state reached before that record. |
| FillRun.RunCompletesIff | entrypoints/popup/scripts/index.ts:33-74 | The run reaches `return true` exactly when no record throws, either in its lookup or in its write. |
| FillRun.FirstThrow | entrypoints/popup/scripts/index.ts:33-74 | This is the index of the first record that throws, or the number of records when none throws. |
| FillRun.RunUpToFirstThrow | entrypoints/popup/scripts/index.ts:33-74 | Every run leaves the page as the records before the first throw would. It completes exactly when nothing throws. |
| FillRun.EventsForShape | entrypoints/popup/scripts/index.ts:57-66 | Each written element gets a bubbling `input` event and then a bubbling `change` event, in record order, and no other events. |
| FillRun.LastWriteNone | entrypoints/popup/scripts/index.ts:57-59 | No value is written to an element exactly when no record reaches it. |
| FillRun.LastWriteSome | entrypoints/popup/scripts/index.ts:57-59 | The value an element ends with comes from a record that reaches it, and no later record reaches it. |
| FillRun.CompletedRunEffect | entrypoints/popup/scripts/index.ts:33-69 | A completed run writes to each reached element the value of the last record that reached it. It leaves every other element unchanged and appends exactly the events of the reached elements. |
| FormFiller.LocateFormSpec | entrypoints/popup/scripts/index.ts:26-31 | The located form is the first element with that id. If there is none, it is the form at the index the id reads as. Nothing is located when neither exists. |
| FormFiller.ScanThenLocate | entrypoints/popup/scripts/index.ts:26-27 | The id the scanner gives a form locates that same form, when no other element has that id. |
| FormFiller.LabelLookupSound | entrypoints/popup/scripts/index.ts:8-42 | A label-found element exists only when the page has a form. The first text node inside the first form that contains the label must have a grandparent. The element is the first input or textarea strictly under that grandparent, which is the parent of the text's element. |
| FormFiller.LabelTextFirst | entrypoints/popup/scripts/index.ts:8-21 | The text node the walker returns is the first one in the first form, in tree order, that contains the label. |
| FormFiller.IdLookupSound | entrypoints/popup/scripts/index.ts:44-51 | An id-found element is inside the form and carries the id that the escaped selector reads back to. |
| FormFiller.NameLookupSound | entrypoints/popup/scripts/index.ts:53-55 | A name-found element is inside the form and carries the name that the attribute selector reads back to. |
| FormFiller.ResolveSound | entrypoints/popup/scripts/index.ts:36-55 | A resolved element was found by one of the three steps, and that step's guarantee holds for it. |
| FormFiller.IdReplacesLabel | entrypoints/popup/scripts/index.ts:36-55 | A non-blank id discards whatever the label step found. When the id finds nothing, the name step decides. |
| FormFiller.LabelWithoutId | entrypoints/popup/scripts/index.ts:36-55 | With a blank id, an element found by the label is the target, whatever the name is. |
| FormFiller.NameOnlyAsFallback | entrypoints/popup/scripts/index.ts:53-55 | The name is used only when the label and id steps found nothing. |
| FormFiller.LabelLookupComplete | entrypoints/popup/scripts/index.ts:8-42 | The label step throws exactly when the page has no form. Otherwise, if the first text of the first form that contains the label has a grandparent with an input or textarea under it, the step finds the first such control. In every other case it finds nothing. |
| FormFiller.PlainNameFindsElement | entrypoints/popup/scripts/index.ts:53-55 | When the label and id steps leave no candidate, a name without quote, backslash or newline finds the form's first descendant in tree order with that (preprocessed) name, and nothing when there is none. |
| FormFiller.PlainIdFindsElement | entrypoints/popup/scripts/index.ts:36-51 | An id of the shape `IdSelectorRoundTrip` covers finds the form's first descendant with that id, whatever the label step found and whatever the name is. It needs only that the label step did not throw, so the label is empty or the page has a form. |
| FormFiller.NoFormLabelThrows | entrypoints/popup/scripts/index.ts:8-10 | On a page without forms, a record with a label throws before its id or name is tried. |
| FormFiller.DigitIdThrows | entrypoints/popup/scripts/index.ts:44-51 | With no label, an id that starts with a digit makes the lookup throw. |
| FormFiller.FulfillOkIff | entrypoints/popup/scripts/index.ts:25-74 | The fill returns false and changes nothing when the form is missing. Otherwise it returns true exactly when no record's lookup throws and no reached element refuses its value. |
| FormFiller.FulfillEffect | entrypoints/popup/scripts/index.ts:33-69 | The fill's new values and events are those of the records run up to the first throw. |
| FormFiller.QuoteInNameFailsFill | entrypoints/popup/scripts/index.ts:53-74 | Under the modelled reader, a record resolved by a name containing a double quote makes the whole fill return false. Nothing is written. |
| FormFiller.RejectedWriteFailsFill | entrypoints/popup/scripts/index.ts:57-74 | A record that reaches a file input with a non-empty value throws at the write. The whole fill returns false and nothing is written. |
| FormFiller.Page.Fulfill | entrypoints/popup/scripts/index.ts:4-75 | The method's result and new page state are those of `FulfillSpec`, including a write that throws. Borders and scroll position are unchanged. |
| FormFiller.Page.WriteRecord | entrypoints/popup/scripts/index.ts:57-66 | The write throws, changing nothing, exactly when the element is a file input and the value is not empty. Otherwise a found record writes its value and appends its two events. Nothing else changes. |
| FormFiller.Page.FindTarget | entrypoints/popup/scripts/index.ts:33-55 | The method returns the element that the label, id and name chain `Resolve` selects. |
| FormFiller.Page.FindCandidate | entrypoints/popup/scripts/index.ts:36-51 | The method returns the label and id candidate, with the id replacing the label. |
| FormFiller.Page.FindById | entrypoints/popup/scripts/index.ts:44-51 | The method returns the id step's element or failure. |
| FormFiller.Page.FindByName | entrypoints/popup/scripts/index.ts:53-55 | The method returns the name step's element or failure. |
| FormFiller.Page.FindByLabel | entrypoints/popup/scripts/index.ts:8-42 | The method returns the label step's element or failure. |
| FormFiller.Page.HighlightFormById | entrypoints/popup/scripts/index.ts:77-90 | Every form's border is cleared and no other border changes. The page scrolls to the located form, or stays put when there is none. Values and events are unchanged. |
| FormFiller.ClearedBorders | entrypoints/popup/scripts/index.ts:78-80 | Every form has an empty border afterwards. Every other element keeps its border. |
| FulfillHook.SanitizeFormFields | entrypoints/hooks/useFulfillForm.tsx:203-207 | A field is kept exactly when its name, placeholder, id or label is non-empty, and the result is no longer than the input. |
| FulfillHook.SanitizeCounts | entrypoints/hooks/useFulfillForm.tsx:203-207 | Each field with a hint appears in the result as often as in the input, and a field without one does not appear. |
| FulfillHook.SanitizeOrder | entrypoints/hooks/useFulfillForm.tsx:203-207 | The kept fields are a subsequence of the input, in the original order. |
| FulfillHook.SanitizeKeepsHinted | entrypoints/hooks/useFulfillForm.tsx:203-207 | A list whose every field has a hint is kept whole. |
| FulfillHook.SanitizeIdempotent | entrypoints/hooks/useFulfillForm.tsx:203-207 | Filtering twice gives the same list as filtering once. |
| FulfillHook.TruncateContext | entrypoints/hooks/useFulfillForm.tsx:214-220 | The text sent is the first min(length, 100000) code units of the description. For example, 150000 units are cut to exactly 100000 from the start. |
| FulfillHook.TruncateContextIdempotent | entrypoints/hooks/useFulfillForm.tsx:214-220 | A text within the limit is sent whole, and cutting twice equals cutting once. |
| FulfillHook.ErrorText | entrypoints/hooks/useFulfillForm.tsx:79-84 | An `Error`'s message is shown as it is. Anything else thrown shows "Something went wrong". |
| FulfillHook.Classify | entrypoints/hooks/useFulfillForm.tsx:138-146 | A reply cut for length fails with "Content too large". A reply without a parsed result fails with the step's message. A rejected call passes its reason on. Only a complete parsed reply succeeds, and with exactly its parsed value. The enrichment reply at lines 311-318 follows the same rules, with "No enriched fields found". |
| FulfillHook.ReadPageText | entrypoints/hooks/useFulfillForm.tsx:149-200 | No active tab gives "Page context not found". An empty or missing script result gives "No HTML found". Otherwise the page text is returned. |
| FulfillHook.ReadyIff | entrypoints/hooks/useFulfillForm.tsx:53-78 | The fill script is reached exactly when the page text, both model replies and the fill tab are all present. It then gets the enrichment reply's records. |
| FulfillHook.RequestsCarry | entrypoints/hooks/useFulfillForm.tsx:52-63 | At most two requests are sent: the page text, then the filtered fields and the cut description. The second is sent only after the job details arrive. |
| FulfillHook.StopReasons | entrypoints/hooks/useFulfillForm.tsx:53-84 | A run stops only with one of the hook's own messages or with a model call's rejection. |
| FulfillHook.Hook.constructor | entrypoints/hooks/useFulfillForm.tsx:38-39 | The hook starts with no error and not loading. |
| FulfillHook.Hook.FulfillForm | entrypoints/hooks/useFulfillForm.tsx:42-91 | With no key, the error is "Open AI key required" and nothing else changes. Otherwise loading ends false and the requests are those of `Stages`. A stop shows its error and leaves the page unchanged. A fill changes the page as `FulfillSpec` says and sets the error by the fill's result. Through `fulfillEnrichedFields` (lines 321-345), a missing fill tab gives "No active tab found" and a false fill result gives "Error form fulfilling". |
| Profiles.ExperienceIssues | entrypoints/popup/components/tabs/CreateProfile.tsx:275-283 | Each of company, position and description is reported exactly when it is shorter than 4 UTF-16 code units. |
| Profiles.EducationIssues | entrypoints/popup/components/tabs/CreateProfile.tsx:285-291 | Each of profession, institution and area of study is reported exactly when it is shorter than 4 UTF-16 code units. |
| Profiles.ShortTextRejected | entrypoints/popup/components/tabs/CreateProfile.tsx:277-279 | An experience with a text of fewer than 2 characters is always rejected. |
| Profiles.ReplaceByIdSpec | entrypoints/popup/components/tabs/CreateProfile.tsx:483-489 | Replacing by id keeps the length. Each entry with the edited id becomes the edited profile, and every other entry is kept. |
| Profiles.EditCase | entrypoints/popup/components/tabs/CreateProfile.tsx:481-489 | Saving a profile that has an id replaces the entries with that id in place. No entry is added. |
| Profiles.EditIdempotent | entrypoints/popup/components/tabs/CreateProfile.tsx:483-489 | Saving the same edit twice gives the same list as saving it once. |
| Profiles.CreateCase | entrypoints/popup/components/tabs/CreateProfile.tsx:490-501 | Saving a profile without an id appends one new entry and leaves the earlier entries unchanged. The entry keeps the profile's data and gets the generated id, unless an empty `id` key overrides it. Unset `relocation` and `remote` become false. |
| Profiles.NoListCase | entrypoints/popup/components/tabs/CreateProfile.tsx:503-517 | With nothing stored, saving stores a list holding just the new entry. The entry keeps the profile's data and its own id when there is one, otherwise the generated id. Unset `relocation` and `remote` become false. |
| Profiles.CreateKeepsIdsUnique | entrypoints/popup/components/tabs/CreateProfile.tsx:490-501 | Creating with a fresh id keeps the ids of the stored list distinct. |
| Profiles.SubmitGuards | entrypoints/popup/components/tabs/CreateProfile.tsx:448-476 | A valid form is refused with the first empty list among experience, socials and languages. Only a form with all three non-empty is saved. |
| Profiles.SavedHasNoDefaults | entrypoints/popup/components/tabs/CreateProfile.tsx:495-498 | For a profile that passes the submit, the `?? false` defaults change nothing. The entry keeps the submitted `relocation` and `location`. |
| Profiles.DeleteSpec | entrypoints/popup/components/tabs/ProfilesList.tsx:25 | Deleting keeps exactly the entries with another id, in order. The length drops by the number of entries with that id. |
| Profiles.DeleteAbsent | entrypoints/popup/components/tabs/ProfilesList.tsx:25 | Deleting an id that no entry has leaves the list unchanged. |
| Profiles.DeleteIdempotent | entrypoints/popup/components/tabs/ProfilesList.tsx:25 | Deleting twice equals deleting once. |
| Profiles.DeleteAppend | entrypoints/popup/components/tabs/ProfilesList.tsx:25 | Deleting from a concatenation deletes from each part. |
| Profiles.CreateThenDelete | entrypoints/popup/components/tabs/ProfilesList.tsx:22-34 | Deleting a just-created profile restores the stored list. |
| Profiles.LoadProfiles | entrypoints/popup/components/tabs/ProfilesList.tsx:12-19 | Only a stored array replaces the shown list. Any other stored value leaves it as it was. |
| Profiles.HandleDelete | entrypoints/popup/components/tabs/ProfilesList.tsx:22-34 | Something is written back exactly when the stored value is an array. What is written is exactly the stored entries with another id, in their order, and it is shorter by the number of entries with the deleted id. |

## Left out

- FulfillHook.TruncateContext: the source computes the new length in floating point, as `floor(len * (100000 / len))`. The model takes it as exactly 100000. Rounding could make it 99999 for some lengths, which the model does not capture.
- CssSelector.ReadIdSelector and ReadNameSelector: only the parts of CSS the two selectors reach are modelled. These parts are identifiers with escapes, and a double-quoted string. A tab or other white space inside an id is really a descendant combinator, and a name such as `x"], sel` is really a selector list. Both are modelled as selectors that do not parse.
- JsText.ParseIndex: `Number` syntaxes other than plain decimal digits are read as not-a-number. Examples are hexadecimal, exponents, a sign and a decimal point.
- Dom.ListedElements: `form.elements` through the `form=` attribute of a control outside the form is not modelled. Only descendants count, and nested forms are not entered.
- FormScanner.DescribeForm: a control named `action` hides the form's own `action` property, so `form.action` is that control. The scanner then reports the control as the form's action; the model reads the `action` attribute as if nothing hid it.
- Dom.ListedElements: a control named `elements` hides the form's `elements` property, so the list built from it is empty and the scanner reports the form with no fields. The model lists the form's controls as if nothing hid them.
- Dom.Forms: a form or image named `forms` hides the document's `forms` property. The scanner then reports no forms, and the fill finds a form only by its id. The model lists the forms as if nothing hid them.
- FormFiller.IdLookup: the id selector is read as in a standards-mode document. In a quirks-mode document `#id` matches ids without regard to ASCII case, so the browser can find an element whose id differs from the field's in case only.
- FormFiller.LocateForm: `document.forms[Number(formId)]` is modelled only for a whole number that is a position. Any other number (NaN, a negative number, a fraction) becomes a property name such as `NaN`, and the collection's named getter then returns a form whose id or name is that text. The model finds no form there.
- CssSelector.NameSelectorQuote: the modelled reader rejects every name with an unescaped double quote. A browser accepts some of them, such as `a"][name="a`, which becomes two attribute selectors. For such a name the fill finds an element where the model throws.
- FillRun.Write: value sanitization is not modelled. A text input strips line breaks from the value, and a number input turns a non-number into the empty string; the model stores the value as given.
- FormFiller.Page.Fulfill: listeners run by `dispatchEvent` may change the page tree or values. The model's tree is fixed, and only the script's own writes change values.
- FormFiller.RejectsValue: the only refused write modelled is a non-empty value into a file input. Setters of other element kinds that can throw are not modelled.
- Profiles.SaveProfile: a stored value that exists but is not an array is treated as no list. Keys whose value is `undefined` are not distinguished from absent ones.
- The prompts and the calls to the language model are not modelled. Each reply is a parameter of `FulfillHook.Environment`.
- Browser tabs, `scripting.executeScript` and extension storage are left out. Their results are parameters, and rejections of their promises other than the model calls' are not modelled.
- The inside of `getTabTextContent` is not modelled: the cloning of the page, the removal of script and style nodes, and `innerText`. It appears only as its result.
- `console.log` is left out.
- The React user interface is left out. `scrollIntoView` is modelled only as the recorded scroll target, and form styling only as the border value.
- The zod e-mail, URL and date validators are left out. `uuidv4` is a parameter (`newId`).
- FulfillHook.Hook.FulfillForm: the three-second timer that clears the error afterwards is left out.
- After a submit, the draft is removed and the view switches tabs. Both are left out.
- The other repository files are not part of this model: option pages, settings, the OpenAI key hook and the profile and form selectors.
