# kuberport: template engine, version and release lifecycle, schema resolution, log fan-in

This project models four parts of kuberport and proves what they promise.

**The template document engine** (`Values`, `PathGrammar`, `PathWriters`, `DocHeap`, `StrictWriter`,
`Confluence`, `Exactness`, `Gaps`, `UiSpec`, `UiMode`, `UiState`, `RoundTrip`, `EditorTrip`, `EditorLaw`,
`Targets`, `Stamps`, `Render`, `RenderLaws`, `FieldRules`). A Kubernetes document is a tree of maps, arrays
and scalars. The editor flattens it into one field per scalar leaf; the server serialises the fields back,
one write per field in the order a Go map happens to be iterated in; the renderer then writes user values and stamps labels. `DocHeap` keeps
the serialiser's writer on mutable maps and fixed array blocks: a grown array is a new block that has to
be linked into its parent again, and the proof shows that no update is lost that way. The serialiser,
the strict writer, the stamping and the renderer change mutable documents in place; the laws are proved
about the value-level functions that these methods are shown to compute.

**The version and release lifecycle** (`Store`, `StoreRules`, `Cluster`, `Handlers`, `Lifecycle`,
`Orphans`, `TemplateHandlers`, `ReleaseHandlers`). Handlers are tasks that read rows, decide, and write
with separate statements; every statement, every transaction and every cluster call is one step, tasks
interleave freely, any call can fail, and a task can crash between any two steps. `TemplateHandlers` and
`ReleaseHandlers` have the handlers as methods on a mutable database and cluster, each proved to do what
its task does when left to itself.

**Schema resolution** (`SchemaRefs`, `SchemaTermination`, `SchemaLaws`, `SchemaFlat`), after section 4.7.24 of the OpenAPI
Specification 3.0.3, and **the log fan-in** (`LogFanIn`) as a transition system of workers, two bounded
channels, a closer and a consumer.

## What the proofs found

- The editor's round trip (`frontend/lib/yaml-to-ui-state.ts:43-44`) does not hold for every document.
  `RoundTrip.RoundTripLaw` gives the exact condition: every key is an identifier of the path grammar,
  arrays have at most 1025 elements, no list mixes maps with lists, and nothing is empty, except an empty
  list element of the same kind as later containers. A label such as `app.kubernetes.io/name` or a
  top-level `data: {}` already breaks it.
- `resolveRefs` (`frontend/lib/openapi.ts:53-98`) does not terminate on every schema map: in an `allOf`,
  an empty `$ref` blanks out the dangling reference of an earlier branch and exposes what lies beside it. It
  terminates whenever no `allOf` that the node reaches has a branch that may dangle followed by a reference
  that may be empty; which schemas are reached and may do either is computed by iteration over the names. The union law of `allOf` can
  fail only through the same blanking.
- The `template-version` label is formatted from the requested number, while the version is looked up
  under its low 32 bits (`backend/internal/api/releases.go:131-134` and `:151-154`): label and version
  agree exactly for requests below 2^31. From there up to 2^32 no version is found; a request above 2^32
  is served like the one 2^32 below it, under a label that is wrong.
- A release path selector is tried as a position before it is tried as a name
  (`backend/internal/template/jsonpath.go:47-55`): the only document of a kind and name is missed exactly
  when its name reads as the position of another document of that kind.
- A value for an exposed field without a default can be rendered exactly when its path fits the serialised
  document: every step lands in a container of its kind, every index in range, and only keys follow the
  first missing key. A field below an array thus needs other fields that fill its slot.
- The editor's state does not always come back from its two texts. A state that serialises in some order of
  its field maps comes back from every such order exactly when each array slot before a written one has a
  field of its own or a written field below it, every fixed field holds a scalar, and no default is a
  container with scalars inside (`EditorLaw.StateComesBackLaw`). Otherwise some order stores a null, or the
  inside of a container, as a further field; the state whose only field is `a[1]` is an instance. With the
  fields `a[2]` and `a[1].b` the outcome depends on the order (`Confluence.SingleWritesDoNotCommute`).
- Version numbers stay without gaps because reading the next number and inserting under it are one step
  here. `StoreRules.SplitInsertLeavesGap` shows the gap that arises between the two statements of
  `backend/internal/api/templates.go:340-366` when a draft is deleted in between.

## Model

| member | source | states |
|---|---|---|
| PathGrammar.Tokenize | backend/internal/template/uimode.go:121-138 | the tokenizer loop reads a path text into the segments of the grammar, or rejects it |
| PathGrammar.TokensOfPathText | frontend/lib/yaml-to-ui-state.ts:69-74 | every path text the flattening builds from identifier keys and indices is read back to exactly the steps it was built from |
| PathGrammar.WordsAreIdentifiers | backend/internal/template/uimode.go:221 | the identifiers are exactly the texts of letters, digits and underscores with no digit in front |
| PathGrammar.WordIsKey | backend/internal/template/uimode.go:121-133 | such a text, `key1` for instance, is one key |
| PathGrammar.AfterWord | backend/internal/template/uimode.go:121-128 | behind a key a dot is skipped, a bracket goes on, and any other character refuses the text |
| PathGrammar.NumeralIsIndex | backend/internal/template/uimode.go:129-136 | a bracketed digit string is its number, capped at the largest 64-bit integer |
| PathGrammar.OtherStartIsRefused | backend/internal/template/uimode.go:123-126 | a segment that starts with anything but a letter, an underscore or a bracket is refused |
| PathGrammar.OpenIndexIsRefused | backend/internal/template/uimode.go:123-126 | a bracket without digits or without its closing bracket is refused |
| DocHeap.SetJSONPathAbsolute | backend/internal/template/uimode.go:114-219 | on mutable maps and replaceable array blocks, a successful write leaves the document the value-level writer computes; a failed one leaves a well-formed document, and only the document's own objects are touched |
| DocHeap.SetParent | backend/internal/template/uimode.go:142-144 | linking a grown array where the walk came through restores the context around it |
| DocHeap.GrowTo | backend/internal/template/uimode.go:178-195 | growing keeps the old elements and fills new slots with null, or with separate fresh containers of the kind the path enters next |
| DocHeap.PlugStored | backend/internal/template/uimode.go:166-215 | context and written piece together store one unshared document of the expected value, at any nesting of relinked arrays |
| PathWriters.PutGet | backend/internal/template/uimode.go:139-218 | reading a written path gives the written value |
| PathWriters.PutFrame | backend/internal/template/uimode.go:139-218 | a path that neither prefixes nor extends the written one reads as before |
| PathWriters.SlotLimit | backend/internal/template/uimode.go:175-177 | slots 0 to 1024 of an array can be written, and no others |
| PathWriters.StrictRefinesGrowing | backend/internal/template/jsonpath.go:61-101 | whatever the strict writer achieves with indices up to 1024, the growing writer achieves with the same result |
| PathWriters.StrictKeepsArrays | backend/internal/template/jsonpath.go:77-96 | the strict writer creates no array and changes no array's length |
| PathWriters.StrictFrame | backend/internal/template/jsonpath.go:61-101 | the strict writer leaves every other path as it was |
| PathWriters.SetOverPut | backend/internal/template/jsonpath.go:61-101 | strictly overwriting what the serialiser put is putting the new value in the first place |
| PathWriters.SetExchangesWithPut | backend/internal/template/jsonpath.go:61-101 | an existing place may be overwritten before or after a growing write elsewhere |
| PathWriters.SetsWhereItFits | backend/internal/template/jsonpath.go:61-101 | the strict writer succeeds exactly where the path fits the document, whatever the value |
| PathWriters.FitsStays | backend/internal/template/jsonpath.go:61-101 | a strict write changes nothing about where paths that part from it fit |
| PathWriters.StrictWritesExchange | backend/internal/template/jsonpath.go:61-101 | two strict writes at paths that part give one result in either order |
| DocHeap.Decode | backend/internal/template/render.go:76-92 | a decoded value is stored in new objects, none of them shared |
| DocHeap.Encode | backend/internal/template/render.go:94-105 | a stored document is written out as the value it stores |
| StrictWriter.SetIntoDocument | backend/internal/template/jsonpath.go:61-101 | the strict walk on mutable maps and arrays, tokenizing as it goes, computes the value-level result |
| StrictWriter.SetTextIsSetInto | backend/internal/template/jsonpath.go:61-68 | tokenizing while walking or beforehand succeeds on the same inputs with the same result |
| Confluence.AnyOrderRebuilds | backend/internal/template/uimode.go:67-88 | on a rebuildable target, every order of writing its fields over a partial copy ends in the target |
| Confluence.SingleWritesDoNotCommute | backend/internal/template/uimode.go:178-194 | two writes that leave different documents depending on their order |
| Exactness.RebuildLaw | backend/internal/template/uimode.go:178-215 | every write order rebuilds a target if and only if it is rebuildable |
| Exactness.BareElementSpoilt | backend/internal/template/uimode.go:178-194 | an empty element that a later scalar or other kind overshoots is lost in some order |
| Exactness.MixedElementsSpoilt | backend/internal/template/uimode.go:184-210 | a list mixing maps and lists fails in some order |
| UiMode.FieldTable.WalkScalars | frontend/lib/yaml-to-ui-state.ts:46-80 | the shared table gains one fixed entry per scalar leaf, under the text of its path, and keeps its other entries |
| UiMode.ResourceOf | frontend/lib/yaml-to-ui-state.ts:92-126 | a document becomes a resource if and only if its apiVersion, kind and name are non-empty strings, with the fields of everything else |
| UiMode.SerializeResource | backend/internal/template/uimode.go:58-92 | the document that grows in place ends as its fields written in some order of the map's keys, with their entries |
| EditorLaw.SerialisesExactly | backend/internal/template/uimode.go:58-92 | a resource serialises if and only if its identity is complete, its modes are known and its entries there, its written texts are paths, and its writes go through in that order |
| RoundTrip.RoundTripLaw | frontend/lib/yaml-to-ui-state.ts:40-45 | flattening and serialising reproduce a document, for every stored table and iteration order, if and only if it is addressable and rebuildable |
| RoundTrip.NonIdentifierLabelIsLost | frontend/lib/yaml-to-ui-state.ts:73-74 | a document with a label key that is no identifier does not survive the trip |
| RoundTrip.EmptyMapIsLost | frontend/lib/yaml-to-ui-state.ts:72-77 | a document with an empty map at the top does not survive the trip |
| UiState.SerializeUIMode | backend/internal/template/uimode.go:51-105 | the documents and ui-spec entries of all resources, in order, for some iteration order of each field map; the first refusal refuses all |
| UiState.YamlToUIState | frontend/lib/yaml-to-ui-state.ts:85-156 | one resource per accepted document, then the ui-spec entries promoted in order, with a warning for everything not taken over |
| UiState.UnwarnedEntryCounts | frontend/lib/yaml-to-ui-state.ts:132-151 | an entry passes without a warning exactly when it has turned the field it names into an exposed one |
| UiState.EntryPathReadsBack | backend/internal/template/uimode.go:86-88 | the entry path the serialiser writes names the same kind, name and field when it is read back by the editor |
| UiState.EntryPathIsOneLine | frontend/lib/yaml-to-ui-state.ts:136-140 | behind a word and a bracketed name, everything is the field if it is one non-empty line, otherwise the path is refused |
| UiState.ExposuresSurvive | frontend/lib/yaml-to-ui-state.ts:129-151 | promoting the serialised entries onto any resources of the same names exposes exactly the fields exposed before, each with its own entry |
| Gaps.ScalarFromRun | backend/internal/template/uimode.go:178-215 | a scalar found after a run of writes was there before, belongs to a written value, or is a slot before a written one |
| Gaps.StepAhead | backend/internal/template/uimode.go:178-215 | with one slot written ahead of time, every write that parts from it goes through as it did before |
| Gaps.MoveToFront | backend/internal/template/uimode.go:178-215 | a run that goes through still does when a slot is written just before the first write through its array |
| Gaps.GapLeft | backend/internal/template/uimode.go:178-182 | moved there, the write leaves null in every slot before it that no other write touches |
| EditorTrip.StateComesBack | frontend/lib/yaml-to-ui-state.ts:85-156 | in given iteration orders, a resource comes back with all its fields if and only if its fixed fields are scalars and every scalar of its document outside the identity stands at the text of a field |
| EditorTrip.FixedContainerIsLost | frontend/lib/yaml-to-ui-state.ts:46-80 | a resource with a container fixed in one field never comes back |
| EditorLaw.RestorableHasNoGaps | backend/internal/template/uimode.go:67-88 | with every slot before a written one filled, no order of the fields leaves a scalar that is no field's |
| EditorLaw.SomeOrderLeavesGap | backend/internal/template/uimode.go:67-88 | for a slot that is not filled, some order that serialises leaves null there |
| EditorLaw.StateComesBackLaw | frontend/lib/yaml-to-ui-state.ts:85-156 | a resource comes back from every order that serialises the state, and every table the flattening may keep, if and only if every slot before a written one is filled and every field holds a value the flattening keeps whole |
| EditorLaw.LateSlotIsLost | backend/internal/template/uimode.go:178-182 | an instance: the state whose only field is fixed at `a[1]` serialises and does not come back |
| Render.FindDocument | backend/internal/template/jsonpath.go:37-57 | the document a selector means: the only one of its kind, else by position, else by name |
| Targets.FindsByName | backend/internal/template/jsonpath.go:47-55 | the only document of its kind and name is found by its name if and only if that name does not read as another one's position |
| Targets.NumericNameIsAPosition | backend/internal/template/jsonpath.go:47-49 | an instance: of two secrets, the second named 0, that name picks the first |
| Targets.HeadReadsBack | backend/internal/template/jsonpath.go:27-35 | the head grammar reads back the kind, name and path the serialiser wrote |
| Targets.HeadWithoutSelector | backend/internal/template/jsonpath.go:27-35 | the selector may be left out |
| Targets.HeadNeedsKind | backend/internal/template/jsonpath.go:27-33 | a text that starts with no capitalised word of two letters or more is no path |
| Targets.FindsOnlyOne | backend/internal/template/jsonpath.go:44-46 | without a selector the only document of its kind is found |
| Targets.FindsByPosition | backend/internal/template/jsonpath.go:47-49 | a number finds the document with that many of its kind before it |
| Targets.FindsNothing | backend/internal/template/jsonpath.go:56 | no selector finds a document of a kind that is not there |
| Stamps.StampLabels | backend/internal/template/render.go:107-142 | the stamping changes the document in place, makes the maps it misses, and leaves the stamped document |
| Stamps.StampsAreReadable | backend/internal/template/render.go:107-142 | every label reads as given afterwards at the document and at every pod template, also below a cron job |
| Stamps.LabelTexts | backend/internal/template/render.go:137-141 | the four labels with their keys and values in full, at the document and at its pod templates |
| Stamps.NoteTexts | backend/internal/template/render.go:110-113 | the three annotations with their keys and values in full |
| Stamps.StampFrame | backend/internal/template/render.go:107-142 | every path that leaves the stamped paths through a map key reads as before |
| Render.Run | backend/internal/template/render.go:35-74 | the field loop and the stamping loop, over documents changed in place, compute the rendering with its errors in order |
| Render.RenderedIsAccepted | backend/internal/template/render.go:50-69 | a successful rendering was content with every field: required values present, chosen values valid |
| FieldRules.IntegerEntry | backend/internal/template/spec.go:58-70 | on a path that fits, an integer renders if and only if it lies between the minimum and the maximum, where given; a float counts as its whole part |
| FieldRules.IntegerEntryRefuses | backend/internal/template/spec.go:61-64 | anything that is no number is refused there |
| FieldRules.StringEntry | backend/internal/template/spec.go:71-87 | a string entry renders exactly strings that match its pattern, if it has one |
| FieldRules.BooleanEntry | backend/internal/template/spec.go:88-91 | a boolean entry renders exactly the booleans |
| FieldRules.EnumEntry | backend/internal/template/spec.go:92-99 | an enum entry renders exactly the values whose printed text is listed |
| FieldRules.OtherEntry | backend/internal/template/spec.go:58-102 | an entry of any other type renders every value |
| FieldRules.MissingEntry | backend/internal/template/render.go:50-60 | without a value a required entry fails, a default counts as supplied, and otherwise nothing is written |
| FieldRules.SuppliedEntry | backend/internal/template/render.go:51-60 | with a value neither the default nor being required matters |
| FieldRules.ValuesAreAnObject | backend/internal/template/render.go:45-48 | null renders like an empty object, and values of any other form fail |
| FieldRules.TextsParse | backend/internal/template/render.go:25-43 | texts that do not parse and patterns that do not compile fail, and those are what the validation of a version looks at |
| FieldRules.RenderedValuesFit | backend/internal/template/render.go:50-66 | with any number of entries, a rendering has every required value, and every supplied value is one its entry takes |
| RenderLaws.SerialiseThenRender | backend/internal/template/render.go:50-71 | on the serialised texts of an editor state, rendering succeeds if and only if every entry accepts the input and every supplied field without a default fits the serialised document; it gives what serialising the chosen values and setting those fields gives, stamped |
| RenderLaws.RenderedFieldsAreReadable | backend/internal/template/render.go:50-71 | every field outside the stamped places that has a value reads as supplied, as its default, or as fixed |
| RenderLaws.RoomInExistingMap | backend/internal/template/jsonpath.go:84-97 | beside another field that fills the place above it, also below an array, a field without a default fits |
| RenderLaws.NoDefaultBelowArrayFails | backend/internal/template/jsonpath.go:77-80 | an instance: the state whose only field is the exposed a[0] without a default cannot be rendered with any valid value for it |
| Store.Database.NextTemplateVersion | backend/internal/store/templates.sql.go:412-421 | the scan finds one more than the highest number, or 1 |
| Store.Database.CreateTemplateVersion | backend/internal/api/templates.go:340-366 | the transaction inserts a draft under the next number, or changes nothing |
| Store.Database.PublishVersion | backend/internal/api/templates.go:239-252 | both updates happen, or neither |
| Store.Database.GetTemplateVersion | backend/internal/store/templates.sql.go:79-109 | finds a version of that template name and number if there is one |
| Store.Database.Insert | backend/internal/store/releases.sql.go:77-116 | stores the row under a fresh identifier unless its key is taken or its version missing |
| Store.Database.UpdateValuesAndVersion | backend/internal/store/releases.sql.go:246-270 | rewrites version, values and rendering of one row and nothing else |
| Store.Database.Delete | backend/internal/store/releases.sql.go:15-22 | removes that row and nothing else |
| Store.Database.CreateTemplate | backend/internal/api/templates.go:116-150 | template and first draft are both inserted, or neither when the name is taken |
| Store.Database.UpdateDraftVersion | backend/internal/store/templates.sql.go:484-493 | for each of the five columns of a draft, a sent value is stored and an unsent one kept; no other row and no other column changes, and a row out of draft is not touched |
| Store.Database.DeleteDraftVersion | backend/internal/store/templates.sql.go:15-30 | a draft that no release references is removed; otherwise nothing changes and the cause is told |
| Store.Database.SetVersionStatus | backend/internal/store/templates.sql.go:451-462 | sets the status of any row, and the publication date only if there is none |
| StoreRules.CreateVersionKeeps | backend/internal/api/templates.go:340-366 | creating a version keeps every table invariant |
| StoreRules.PublishKeeps | backend/internal/store/templates.sql.go:423-428 | publishing keeps every table invariant; the published draft was the highest version |
| StoreRules.SetStatusKeeps | backend/internal/store/templates.sql.go:451-456 | the unguarded status update keeps every table invariant on a version out of draft |
| StoreRules.UpdateDraftKeeps | backend/internal/store/templates.sql.go:484-493 | a patch that coalesces columns keeps every table invariant, next to any earlier patch |
| StoreRules.DeleteDraftKeeps | backend/internal/store/templates.sql.go:15-19 | deleting a draft keeps every table invariant and no current version is lost |
| StoreRules.NeverRestricted | backend/migrations/schema.hcl:285-289 | the restricting foreign key never stops the deletion of a draft |
| StoreRules.SplitInsertLeavesGap | backend/internal/api/templates.go:340-366 | reading the next number and inserting under it as two steps leaves a gap when the draft is deleted in between |
| Render.HalvesAreIndependent | backend/internal/template/render.go:25-33 | a valid resources half and a valid ui-spec half are valid together, wherever they come from |
| TemplateHandlers.CreateTemplate | backend/internal/api/templates.go:39-168 | 201 means a new draft 1 with the sent texts, or with one serialisation of the sent state; any other answer changes nothing; tables and status are those of its task |
| TemplateHandlers.CreateVersion | backend/internal/api/templates.go:273-381 | likewise for a further version under the next number, with every refusal |
| TemplateHandlers.PatchVersion | backend/internal/api/templates.go:408-509 | 200 means a draft of that name and number with the sent metadata, notes and state, and the sent texts or one serialisation of the sent state, all else unchanged; any other answer changes nothing; the halves are checked next to the draft as read |
| TemplateHandlers.DeleteVersion | backend/internal/api/templates.go:515-545 | likewise for deleting a draft |
| TemplateHandlers.PublishVersion | backend/internal/api/templates.go:220-262 | likewise for publishing, with 409 whenever the first statement fails |
| TemplateHandlers.SetStatusOf | backend/internal/api/templates.go:555-581 | likewise for deprecating and undeprecating |
| TemplateHandlers.PatchColumns | backend/internal/api/templates.go:435-488 | the columns a patch sets, or a refusal for a payload of the wrong mode or halves that do not parse |
| Lifecycle.NextKeeps | backend/internal/api/templates.go:408-581 | every step of every handler keeps the tables' invariant and everything waiting tasks rely on, and never takes back what was published |
| Lifecycle.ReleasesRenderTheirVersion | backend/internal/api/releases.go:129-175 | in every reachable state a release stands on an existing version that is no draft, and its rendering is that of the version's present content with its stored values |
| Lifecycle.PublishedForGood | backend/internal/store/templates.sql.go:423-428 | along every run a version out of draft is never deleted, never a draft again, and changes nothing but its status |
| Lifecycle.UncheckedStatementsAreSafe | backend/internal/api/templates.go:555-581 | in every reachable state a pending status update meets a version out of draft, and no foreign key fires |
| Lifecycle.VersionsAreNumbered | backend/migrations/schema.hcl:226-234 | in every reachable state a template's numbers are exactly 1 to n, each once, and a draft is n |
| Lifecycle.CurrentAndDates | backend/internal/api/templates.go:241-252 | in every reachable state the current version is the highest out of draft, and exactly those have a publication date |
| Lifecycle.StoredContentIsCoherent | backend/internal/api/templates.go:438-497 | in every reachable state every version parses, and in UI mode both texts are one serialisation of the state stored beside them |
| Lifecycle.VersionLabel | backend/internal/api/releases.go:151-157 | the version label shows the number of the version used if and only if the requested number fits into 32 bits |
| Lifecycle.WideVersionIsServed | backend/internal/api/releases.go:131-134 | a request 2^32 higher gets the same answer and the same version |
| Lifecycle.NoVersionIsNegative | backend/internal/api/releases.go:131-138 | a request that converts to no positive number, such as any above 2^31 - 1 and up to 2^32, finds no version |
| Cluster.Api.ApplyAll | backend/internal/k8s/apply.go:21-65 | every document is attempted in turn; success is reported exactly when all were applied |
| Cluster.AppliedIsDesired | backend/internal/k8s/apply.go:21-65 | a fully answered application leaves what was asked for and touches nothing else |
| Cluster.AppliedWithin | backend/internal/k8s/apply.go:21-65 | however it ends, an application removes nothing and puts only objects that were asked for |
| Cluster.Api.DeleteByRelease | backend/internal/k8s/apply.go:121-136 | other objects are never touched, and with all calls answered no labelled object of a supported kind is left in the namespace |
| Cluster.StampedIsLabelled | backend/internal/template/render.go:136-142 | a stamped document carries its release's label in whatever namespace it lands |
| Cluster.AppliedKinds | backend/internal/k8s/apply.go:88-105 | exactly ten kinds are applied, each under a resource of its own |
| Cluster.GroupBeforeSlash | backend/internal/k8s/apply.go:34-44 | the group is what stands before the slash of the `apiVersion`, or the core group |
| Cluster.ResourceNamed | backend/internal/k8s/apply.go:34-47 | the resource of a document follows from its group and its kind, whatever the version |
| Cluster.CleanUpKnowsTheKinds | backend/internal/k8s/apply.go:107-119 | the ten kinds under their groups are what a clean-up goes through |
| Cluster.ObjectNamesItself | backend/internal/k8s/apply.go:43-54 | a document keeps a namespace of its own and gets the release's otherwise, is unchanged apart from that, and is found under its name and namespace |
| Cluster.ReleaseByLabel | backend/internal/k8s/apply.go:122-123 | an object belongs to the release that its label `kuberport.io/release` names |
| Orphans.NextTidy | backend/internal/api/releases.go:167-211 | one step of an orderly run leaves no orphan and does not disturb the handlers of other releases |
| Orphans.EveryObjectHasItsRow | backend/internal/api/releases.go:167-211 | at every step of every orderly run, crashes included, each labelled object has the row of its release |
| Orphans.SuccessfulDeleteLeavesNothing | backend/internal/api/releases.go:383-408 | when a delete is answered with success, no object with that label is left and the row is gone |
| Orphans.WithinReach | backend/internal/k8s/apply.go:42-60 | an applied document is removed by a complete clean-up of its release if and only if it lands in the release's namespace as a resource the clean-up goes through |
| Orphans.OwnNamespaceEscapes | backend/internal/k8s/apply.go:47-49 | in particular a document with another namespace of its own stays |
| ReleaseHandlers.UpdateRelease | backend/internal/api/release_update.go:51-167 | the row changes if and only if the answer is 200, and then stands on the requested version, published, rendered with the sent values; a deprecated version gives 400 and a draft 409 with nothing done; after a failed write and a successful rollback the old objects are back and extra ones still carry the label |
| ReleaseHandlers.CreateRelease | backend/internal/api/releases.go:120-213 | 201 if and only if row and objects are all there, for a version that is published; a deprecated version gives 400 and a draft 409 with nothing done; after any other answer successful compensations leave neither |
| ReleaseHandlers.RemoveRelease | backend/internal/api/releases.go:352-409 | 200 if and only if the row is deleted, without force after all its objects; any other answer leaves the row |
| ReleaseHandlers.UpdateIsARun | backend/internal/api/release_update.go:51-167 | what the update method computes is what its task ends with when no other task takes a step |
| ReleaseHandlers.CreateIsARun | backend/internal/api/releases.go:120-213 | likewise for creating a release, compensations included |
| ReleaseHandlers.RemoveIsARun | backend/internal/api/releases.go:352-409 | likewise for deleting a release |
| Handlers.ApplyingRuns | backend/internal/k8s/apply.go:27-64 | applying one document per step is applying the documents in one loop, with the same verdict |
| Handlers.CleaningRuns | backend/internal/k8s/apply.go:125-134 | clearing one resource per step is clearing them in one loop, with the same verdict |
| ReleaseHandlers.PrepareRelease | backend/internal/api/releases.go:91-162 | a row stands on the requested version, published, and holds its rendering under the labels of the release; a deprecated version gives 400, a draft 409; the cluster lookup and the rendering refuse with their own status |
| ReleaseHandlers.DeploysCallByCall | backend/internal/k8s/apply.go:21-65 | a release is deployed when each of its documents names an object and its own call is answered |
| ReleaseHandlers.UpdateNeedsNoLookUp | backend/internal/api/release_update.go:78-129 | an update takes the cluster from the stored release |
| ReleaseHandlers.CreateNeedsCluster | backend/internal/api/releases.go:141-145 | a published version for a cluster that is not registered gives 404 |
| SchemaTermination.Terminates | frontend/lib/openapi.ts:53-98 | resolution ends, on cyclic maps too, where no allOf of the node or of a schema it reaches lets an empty reference follow a dangling branch, also on the combined node |
| SchemaTermination.ResolveTerminates | frontend/lib/openapi.ts:53-98 | the public call has a result there, for the sets of names computed by iteration |
| SchemaTermination.ReachedNamesAreReached | frontend/lib/openapi.ts:54-97 | the iteration over the names finds exactly the schemas a node reaches through references, allOf, properties and items |
| SchemaTermination.ComputedNamesAreClosed | frontend/lib/openapi.ts:54-58 | the iteration finds every schema that may dangle or may be blank |
| SchemaTermination.ComputedNamesAreLeast | frontend/lib/openapi.ts:54-58 | no other such sets of names would admit more schema maps |
| SchemaTermination.CarefulTerminates | frontend/lib/openapi.ts:53-98 | every node that reaches no empty reference, and every node that reaches no dangling one, is covered |
| SchemaTermination.LoopingDiverges | frontend/lib/openapi.ts:54-97 | an input on which no depth of calls is enough |
| SchemaTermination.MeetingMayEnd | frontend/lib/openapi.ts:59-97 | an input where the two kinds meet and resolution ends all the same |
| SchemaRefs.ResultIsResolved | frontend/lib/openapi.ts:49-52 | results hold no resolvable reference and no allOf outside dangling references |
| SchemaRefs.ResolveIdempotent | frontend/lib/openapi.ts:53-98 | resolving a result again gives the result and nothing else |
| SchemaRefs.ResultUnique | frontend/lib/openapi.ts:53-98 | there is at most one result, whatever the depth of calls allowed |
| SchemaLaws.AllOfUnion | frontend/lib/openapi.ts:65-95 | unless a dangling branch is blanked out, property and required names of an allOf node's result are those of its resolved branches and its own, and no others |
| SchemaLaws.AllOfOverride | frontend/lib/openapi.ts:72-95 | the node's own definition wins, resolved in place, or as it stands beside a dangling branch; otherwise the last branch defining it wins |
| SchemaLaws.AllOfTexts | frontend/lib/openapi.ts:61-92 | kind and description are the node's own if present, otherwise those of the last branch result that has one, otherwise none |
| SchemaLaws.AllOfExtra | frontend/lib/openapi.ts:72-92 | the same for every other key |
| SchemaLaws.AllOfItems | frontend/lib/openapi.ts:72-96 | the node's own items win, resolved in place, otherwise those of the last branch result that has some |
| SchemaLaws.ReferenceLaw | frontend/lib/openapi.ts:54-61 | a reference stands for the schema of its name, is cut off when met again below it, and stays when there is none |
| SchemaLaws.PlainLaw | frontend/lib/openapi.ts:90-97 | any other node only has its properties and items replaced, by their own results |
| SchemaLaws.BlankedBreaksUnion | frontend/lib/openapi.ts:72-97 | an input where a blanked dangling branch gives the result a property that no branch and not the node defines |
| SchemaFlat.FlattenSchema | frontend/lib/openapi.ts:106-123 | every place reachable through properties and items is listed exactly once, with the schema found there and whether its parent requires it |
| SchemaFlat.StepsOfSchema | frontend/lib/openapi.ts:110-121 | below an object lie its properties, required if listed; below an array its first element, never required; nothing else |
| SchemaFlat.PlaceTexts | frontend/lib/openapi.ts:112-118 | a property is written behind a dot, an element as `[0]` |
| SchemaFlat.ListedPathsReadBack | frontend/lib/openapi.ts:108-123 | with identifier names, the writers' tokenizer reads each listed path back to its steps |
| LogFanIn.StepKeepsInv | backend/internal/k8s/logs.go:27-69 | every step keeps the channel bounds, the close counts and the line bookkeeping |
| LogFanIn.NeverBlocksOnErrorsNorPanics | backend/internal/k8s/logs.go:28-58 | no worker ever waits on the error channel, and nothing is sent on or closes a closed channel |
| LogFanIn.ClosedOnceAfterWorkers | backend/internal/k8s/logs.go:62-66 | each channel is closed at most once, the lines first, and only after all workers finished |
| LogFanIn.EmittedIsPrefix | backend/internal/api/release_logs.go:81-108 | the lines a client gets for a pod are an in-order prefix of those scanned from it |
| LogFanIn.NothingLostUncancelled | backend/internal/k8s/logs.go:49-55 | without cancellation, all lines of a finished pod have been sent to the client or wait in the channel |
| LogFanIn.LinesCanBeDropped | backend/internal/api/release_logs.go:88-91 | only a prefix: a run that ends with a scanned line never emitted |
| LogFanIn.ChannelsAreBounded | backend/internal/k8s/logs.go:28-29 | at most 64 lines and one error per pod wait |
| LogFanIn.ChannelFills | backend/internal/k8s/logs.go:28 | up to 64 lines can wait while nobody receives |
| LogFanIn.EveryLineCanArrive | backend/internal/k8s/logs.go:49-55 | for every text a pod writes, some run hands all its lines to the client in order |
| LogFanIn.DeliveryCanEnd | backend/internal/k8s/logs.go:62-66 | and can end with both channels closed |
| LogFanIn.FailureIsReported | backend/internal/k8s/logs.go:39-58 | a stream that fails at opening or while it is read puts its error into the channel |
| LogFanIn.BackgroundRunsAreBounded | backend/internal/k8s/logs.go:49-66 | without a consumer, workers and closer take at most a computed number of steps |
| LogFanIn.CancelledRunsShutDown | backend/internal/k8s/logs.go:49-66 | after cancellation, with nobody receiving, all workers finish and both channels close |

## Left out

- SchemaTermination.ResolveTerminates: the condition is not necessary (`SchemaTermination.MeetingMayEnd`), and no converse is given: once a dangling reference is blanked out, the `allOf` and the unresolved properties beside it are resolved as parts of a combined node that occurs in no schema, under a smaller set of names seen, so whether that repeats depends on every node the run builds and not on a condition on the schemas that is simpler than following the run.
- SchemaLaws.AllOfUnion: excludes a blanked dangling branch, where the law fails (`SchemaLaws.BlankedBreaksUnion`).
- DocHeap.SetJSONPathAbsolute: the written value must not share objects with the document. Every caller writes a value decoded for this one write, so this holds; a value shared on purpose is not modelled.
- StrictWriter.SetIntoDocument: the same holds of the value written there.
- Render.Run: a value is decoded anew for each write. Two entries of a ui-spec with the very same path share one supplied container in the source, so that a third entry writing inside it in between would still be seen after the second write; the model does not capture that.
- EditorLaw.StateComesBackLaw: fields whose paths meet each other or the identity, fields under texts the flattening would not build, and values with keys that are no identifiers or arrays longer than 1025 are not covered.
- RoundTrip.RoundTripLaw: records are plain maps. A scalar under the top-level key `__proto__` meets the law's condition, but assigning it in `frontend/lib/yaml-to-ui-state.ts:52-58` sets the prototype of the table and the field is lost.
- SchemaRefs.ResultIsResolved: likewise `frontend/lib/openapi.ts:57` finds an inherited property under a name such as `constructor`, where the model has a dangling reference.
- RenderLaws.SerialiseThenRender: states with two fields whose paths meet are not covered; which of the two values survives depends on the iteration order.
- RenderLaws.RenderedFieldsAreReadable: the same.
- Orphans.EveryObjectHasItsRow: assumes one handler at a time per release, clean-up calls that succeed, no forced deletion, and rendered documents within reach of their release's clean-up (`Orphans.WithinReach`); the code does not defend against the contrary. The objects are the applied ones: Pods, ReplicaSets and other objects that controllers make from a stamped pod template carry the release's label too and are not modelled.
- Asynchronous deletion: an answered deletion has removed the object, while a cluster only starts to remove it; the no-orphan results speak of the objects whose deletion has not been answered.
- Handlers.FirstStep: a first read that fails is answered with 500; several handlers answer 404 to any error of that read, such as the version lookups of `backend/internal/api/releases.go:131-138` and `backend/internal/api/templates.go:230-237`. Only the status differs.
- ReleaseHandlers.UpdateRelease: a failing statement is taken to have no effect; a connection lost after commit is not modelled.
- Lifecycle.VersionsAreNumbered: each transaction is one step; weaker isolation inside `CreateTemplateVersion` is not modelled beyond `StoreRules.SplitInsertLeavesGap`.
- Parsing and printing of YAML and JSON: texts are seen through their parsers, and storing a text and reading it back is taken to give the same tree. Regular expressions of field patterns, value printing and their compilation are open functions.
- Whether a rendered integer field is an integer in range: validation truncates floats before comparing, and the raw value is written (`backend/internal/template/spec.go:104-114`).
- Labels, owners, tags and descriptions of templates, metadata updates, teams, permissions (a refusal is a failing first step), sessions, users and clusters as rows.
- Server-side apply as seen by other field managers: an applied object is the applied document. API versions of one group are the same objects.
- Requests for two handlers on one release at the same time, as far as clusters are concerned; the tables' invariants hold for them as well.
- HTTP bodies and messages, log output, timeouts, pagination, status summaries, the OpenAPI cache and its index, `findKindSchema`, React components, Helm files.
