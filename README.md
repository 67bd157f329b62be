# Piranha CMS bootstrap: application registry and JSON block-type builder

A Dafny model of two pieces of the start-up logic of Piranha CMS (piranha.core):

- **`Piranha.App`** (module `Piranha`, `app.dfy`): the application registry.
  It holds field types, extension modules, block types and page types, plus the
  flag `isInitialized`. `Initialize` populates it at most once. On the first
  call it registers the built-in HtmlField, StringField and TextField. It then
  replaces the page types with the storage API's list. Last, for each
  extension module it calls the module's `Init()` and appends the module.
  The flag is set after the loop. A module whose `Init()` throws stops the
  call, and the flag stays clear. The class `App` is proved against the
  function `Initialization`. That function returns the new state, how the
  call ended, and the ordered list of steps the call made (`Event`).
- **`BlockTypeBuilder`** (module `BuilderJson`, `block_type_builder.dfy`): a
  fluent list of `(filename, optional)` entries. `Build` walks the list in
  order. A missing required file fails with not-found. A missing optional file
  is skipped. An existing file is deserialized, then validated, then each of its
  block types is saved through the storage API. The first failure stops the
  build, and nothing already saved is undone. The class `BlockTypeBuilder` is
  proved against the fold `BuildFiles`. The storage API is `BlockTypeApi`,
  which records every saved block type in call order.
- `extend.dfy` (module `Extend`) holds the shared value types: field, block
  and page types, and modules.

Inputs that stand for the outside world:
- `App.Initialize` takes the page types the API returns (`apiPageTypes`), the
  modules (`None` for a `null` array), and for each module whether its `Init()` completes (`initSucceeds`).
- `BlockTypeBuilder.Build` takes the file system as a map from file name to
  content (`Unparsable` or a parsed `BlockTypeConfig`). It also takes
  `AssertConfigIsValid` as the predicate `isValid`.

## Model

| member | source | states |
|---|---|---|
| `Piranha.App.constructor` | src/core/Piranha.Core/App.cs:74-79 | a fresh registry is not initialized and its fields, modules, block types and page types are all empty |
| `Piranha.App.Initialize` | src/core/Piranha.Core/App.cs:93-115 | the new state, the outcome and the steps made are those of `Initialization` on the old state, with the lock and double check reduced to one flag test |
| `Piranha.InitializationIsNoOpOnceInitialized` | src/core/Piranha.Core/App.cs:94-96 | once the flag is set, a call leaves every catalog and the flag unchanged and makes no step at all |
| `Piranha.InitializationSucceeds` | src/core/Piranha.Core/App.cs:97-111 | a first call whose hooks all complete registers HtmlField, StringField, TextField in that order, first. It then fetches the page types and adopts them wholesale. Each module's Init comes before its Add. Modules end as old modules followed by the supplied ones, in order. Block types stay unchanged, and the flag is set last |
| `Piranha.InitializationFailsAt` | src/core/Piranha.Core/App.cs:106-111 | when hook k is the first to fail, the flag stays clear and modules gain exactly modules 0..k-1. Hook k was called but module k was not added. Fields and page types keep the changes already made |
| `Piranha.InitializedIffAllHooksComplete` | src/core/Piranha.Core/App.cs:106-111 | after a call the flag is set exactly when it was set before or every supplied hook completed. The call completes exactly when the flag is set. Marking as initialized is the last step, and no failed call makes it |
| `Piranha.InitializationKeepsBlockTypes` | src/core/Piranha.Core/App.cs:93-115 | `Initialize` never changes the block types |
| `Piranha.InitializationWithNullModules` | src/core/Piranha.Core/App.cs:93-106 | a first call given a `null` modules array registers the three built-in fields and replaces the page types. It then ends with the null-reference failure of the loop before any module is touched, leaving the flag clear |
| `Piranha.RetryAfterFailure` | src/core/Piranha.Core/App.cs:93-115 | after a failed first call, a successful retry registers the built-in fields a second time. It also appends again the modules added before the failure, and adopts the retry's page types |
| `Piranha.ModuleEventsAt` | src/core/Piranha.Core/App.cs:106-109 | in a completed module loop, module j's Init is step 2j and its Add is step 2j+1 |
| `Piranha.RunModulesAllSucceed` | src/core/Piranha.Core/App.cs:106-109 | when every hook completes, the loop appends all modules in the supplied order and makes an Init, Add pair per module |
| `Piranha.RunModulesFailsAt` | src/core/Piranha.Core/App.cs:106-109 | when hook k is the first to fail, the loop appends exactly modules 0..k-1 and reports failure at k. Its last step is Init of module k |
| `Piranha.RunModulesCompletesIff` | src/core/Piranha.Core/App.cs:106-109 | the module loop completes if and only if every hook completes |
| `Piranha.RunModulesNeverMarks` | src/core/Piranha.Core/App.cs:106-111 | the module loop itself never marks the registry initialized |
| `Piranha.ModuleEventsAppend` | src/core/Piranha.Core/App.cs:106-109 | the steps for two module lists run one after the other are the steps of the first followed by those of the second |
| `BuilderJson.BlockTypeBuilder.constructor` | src/core/Piranha.Builder.Json/BlockTypeBuilder.cs:20-30 | a new builder has an empty file list and holds the given API |
| `BuilderJson.BlockTypeBuilder.AddJsonFile` | src/core/Piranha.Builder.Json/BlockTypeBuilder.cs:38-44 | appends exactly one entry with the given filename and optional flag at the end of the list. The flag defaults to false, so a one-argument call adds a required file. Earlier entries stay. Returns the same builder |
| `BuilderJson.BlockTypeApi.Save` | src/core/Piranha.Builder.Json/BlockTypeBuilder.cs:59-60 | each save call appends its block type to the API's record of calls |
| `BuilderJson.BlockTypeBuilder.Build` | src/core/Piranha.Builder.Json/BlockTypeBuilder.cs:49-67 | the API's saves grow by exactly `BuildFiles(files)`'s saves, and the outcome is its outcome. The file list is unchanged, so a second build on the same file system appends the same saves again |
| `BuilderJson.BuildFilesAppend` | src/core/Piranha.Builder.Json/BlockTypeBuilder.cs:50 | files are processed strictly in order. Building `a + b` is building `a`, then, unless that failed, building `b` with its saves after `a`'s |
| `BuilderJson.FailureIgnoresLaterFiles` | src/core/Piranha.Builder.Json/BlockTypeBuilder.cs:50-66 | once a prefix fails, no later file changes the result. The earlier saves remain |
| `BuilderJson.MissingOptionalFileIsSkipped` | src/core/Piranha.Builder.Json/BlockTypeBuilder.cs:51-65 | inserting a missing optional file anywhere in the list changes neither the outcome nor the saves |
| `BuilderJson.RejectedFileStopsBuild` | src/core/Piranha.Builder.Json/BlockTypeBuilder.cs:50-66 | reaching a rejected file fails the build with that file's error. Only the earlier files' saves are kept |
| `BuilderJson.MissingRequiredFileFails` | src/core/Piranha.Builder.Json/BlockTypeBuilder.cs:63-64 | a missing required file after a clean prefix fails with not-found for that file. The saves are exactly the prefix's, and no later file counts |
| `BuilderJson.UnparsableFileFails` | src/core/Piranha.Builder.Json/BlockTypeBuilder.cs:51-54 | an existing file that does not deserialize fails with a parse error. It saves nothing |
| `BuilderJson.InvalidConfigSavesNothing` | src/core/Piranha.Builder.Json/BlockTypeBuilder.cs:54-60 | validation precedes saving. An invalid config fails with a validation error, and none of its block types are saved |
| `BuilderJson.BuildSucceedsIff` | src/core/Piranha.Builder.Json/BlockTypeBuilder.cs:50-65 | a build succeeds if and only if every file is acceptable: present, parseable and valid, or missing and optional. Then the saves are the declared block types of the present files, in file order and declaration order |
| `BuilderJson.BuildFailsAtFirstRejected` | src/core/Piranha.Builder.Json/BlockTypeBuilder.cs:50-66 | with k the first unacceptable file, the build fails with an error naming file k. The saves are the declared block types of files 0..k-1, a prefix of what the whole list declares |
| `BuilderJson.DeclaredAppend` | src/core/Piranha.Builder.Json/BlockTypeBuilder.cs:50-60 | the block types declared by two file lists together are those of the first followed by those of the second |
| `BuilderJson.HeroExample` | src/core/Piranha.Builder.Json/BlockTypeBuilder.cs:49-67 | a required `types.json` declaring `hero`, then a missing optional `extra.json`, builds and saves just `hero` |

## Left out

- Threading: the `lock (mutex)` and the second flag test in `Initialize` matter only under concurrency. The model is one thread, and one flag test.
- The static singleton `instance`, the static `Init` wrapper and the static property getters (`Fields`, `Modules`, `BlockTypes`, `PageTypes`) are plain accessors, so they are left out. `App` is one object with its fields.
- `PropertyBindings` is a reflection constant, so it is left out.
- `FieldInfoList.Register<T>` is not part of this model. Registration is modelled as appending the field type's tag to `fields`. Any de-duplication it may do is not captured, so `Piranha.RetryAfterFailure` shows duplicate registrations.
- What a module's `Init()` does is not modelled, including any callback into the registry. Only whether it completes is modelled.
- Exceptions from the storage API are left out: from `api.PageTypes.Get()` in `Initialize`, and from `api.BlockTypes.Save` in `Build`. Also, the storage semantics of a save (insert or replace by key) are not modelled. Only the sequence of save calls is.
- File I/O and JSON deserialization (`File.Exists`, `File.OpenRead`, `StreamReader`, `JsonConvert`) are replaced by the file-system map and its `Unparsable`/`Json` contents. So the model does not capture the file system changing while a build runs. A document that deserializes to null makes the source throw a null-reference error at `AssertConfigIsValid`; the model reports that case as a parse error (`Unparsable`).
- The rules of `AssertConfigIsValid` are not part of this model. The rules are the caller-supplied predicate `isValid`.
