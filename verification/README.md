# Copilot entry points: registry, schema translation and call dispatch

This project models the entry-point half of the copilot context provider in
`examples/next-openai/app/copilot-context.tsx`. The model covers three pieces.

- **Entry-point registry.** `entryPoints` is a plain object from registration
  id to `AnnotatedFunction`. `setEntryPoint` and `removeEntryPoint` replace it
  with an updated copy. `Object.values` reads its values in key order.
  The model is `EntryPoints.Registry`: a sequence of `(id, fn)` pairs with
  pairwise distinct ids, in the order JavaScript enumerates an object's own
  string keys. `AsMap` is its dictionary view and `Values` its value snapshot.
  A sequence of queued updates is `ApplyAll` over `Update`
  values (`SetEntryPoint`, `RemoveEntryPoint`).
- **Schema translator.** `annotatedFunctionToChatCompletionFunction` fills a
  `parameters` dictionary in a loop over the argument annotations.
  `entryPointsToChatCompletionFunctions` maps that over a list of functions.
  The loop is the method `SchemaTranslator.AnnotatedFunctionToChatCompletionFunction`.
  It is proved equal to the function `ChatCompletionFunctionOf`, which the
  list translation uses.
- **Call dispatcher.** The handler built by `entryPointsToFunctionCallHandler`
  fills a name-keyed dictionary from a snapshot and looks up the called name.
  It then parses the argument text and invokes the implementation. The loop
  is the method `CallDispatcher.HandleFunctionCall`, proved equal to the
  function `Dispatch`. Both use an own-key lookup, which is the intended
  behaviour. The source's own lookup at line 108 also finds members inherited
  from `Object.prototype`; it is `CallDispatcher.DispatchAsWritten` (see
  "## Findings"). An outcome is one of three things:
  - `Ignored`: nothing happens.
  - `Invoked(fn, args)`: the implementation that would be awaited, and the
    arguments it gets.
  - `Failed(ParseError | TypeError)`: the handler rejects.

  No outcome carries the implementation's result, because the handler never
  returns one.

Both dictionary-filling loops have the same meaning. A plain object filled
with `d[key(x)] = val(x)` keeps, for each key, the value of the last element
with that key. `Dictionary.Build` states this once, together with
`Dictionary.LastIndexOf`.

Two foreign pieces are parameters or identities.
- `JSON.parse` is a parameter `parse: string -> Option<Json>`. `None` stands
  for the SyntaxError it throws.
- The implementation closure is an opaque `ImplementationRef`.

`AnnotatedFunction` is declared in `use-make-copilot-actionable`, which is not
part of this model. Its shape here (name, description, argument annotations
with name, type and description, implementation) is taken from the uses at
lines 105, 115, 149-150 and 155-156.

Three behaviours of the code shape the model:
- An empty argument string is treated like an absent one, because the source
  tests `functionCall.arguments` for truthiness (line 111).
- A parsed value is spread into the call (line 115). An array passes its
  items. A string passes one argument per code point. Any other value makes
  the call throw a TypeError, so the payload is not required to be a list.
- An unknown function name is not always a no-op. See "## Findings".

## Model

| member | source | states |
|---|---|---|
| `Dictionary.LastIndexOf` | examples/next-openai/app/copilot-context.tsx:104-105 | the result is -1 or an index whose element has the key, and no later element has that key |
| `Dictionary.Build` | examples/next-openai/app/copilot-context.tsx:103-106 | a key is present exactly when some element has it; its value comes from the last element with that key |
| `Dictionary.BuildKeys` | examples/next-openai/app/copilot-context.tsx:148-151 | the filled dictionary's key set is exactly the set of the elements' keys |
| `Dictionary.BuildSnoc` | examples/next-openai/app/copilot-context.tsx:105 | one more loop iteration overwrites or adds exactly that element's key |
| `EntryPoints.IndexOf` | examples/next-openai/app/copilot-context.tsx:38-41 | the position of an id among the keys (or the length when absent); no earlier key equals it |
| `EntryPoints.AsMapContents` | examples/next-openai/app/copilot-context.tsx:29-31 | the dictionary view has exactly the registered ids as keys, each mapped to its own entry point |
| `EntryPoints.Put` | examples/next-openai/app/copilot-context.tsx:37-41 | a known id is overwritten in place, a new id is appended at the end; all other pairs are untouched and the ids stay distinct |
| `EntryPoints.Remove` | examples/next-openai/app/copilot-context.tsx:48-51 | the id is absent afterwards; an absent id leaves the registry unchanged; otherwise exactly its pair is dropped and the others keep their relative order |
| `EntryPoints.PutIsMapUpdate` | examples/next-openai/app/copilot-context.tsx:37-41 | as a dictionary, setEntryPoint maps the id to the new function and keeps every other id's value |
| `EntryPoints.RemoveIds` | examples/next-openai/app/copilot-context.tsx:49-50 | removal takes exactly that id out of the set of ids |
| `EntryPoints.RemoveIsMapDelete` | examples/next-openai/app/copilot-context.tsx:48-51 | as a dictionary, removeEntryPoint deletes that key and keeps every other id's value |
| `EntryPoints.RemoveIdempotent` | examples/next-openai/app/copilot-context.tsx:47-53 | removing the same id twice equals removing it once |
| `EntryPoints.PutOverwrites` | examples/next-openai/app/copilot-context.tsx:35-45 | a second setEntryPoint for an id equals a single one with the later function |
| `EntryPoints.RemoveUndoesNewPut` | examples/next-openai/app/copilot-context.tsx:35-53 | registering a new id and then removing it restores the previous registry exactly, order included |
| `EntryPoints.Values` | examples/next-openai/app/copilot-context.tsx:74 | the `Object.values` snapshot has one function per registered id, in key order, each the function registered under that id |
| `EntryPoints.PutValues` | examples/next-openai/app/copilot-context.tsx:74 | the value snapshot after setEntryPoint: appended for a new id, replaced at the id's position for a known one |
| `EntryPoints.LookupAfterApply` | examples/next-openai/app/copilot-context.tsx:35-53 | one update changes the value seen under an id exactly as the update-history reference says |
| `EntryPoints.ApplyAllKeepsLastWrite` | examples/next-openai/app/copilot-context.tsx:35-53 | after any sequence of set and remove calls, each id holds the value of the latest call naming it, or is absent if that call removed it |
| `SchemaTranslator.ChatCompletionFunctionOf` | examples/next-openai/app/copilot-context.tsx:144-161 | the schema copies name and description unchanged; its parameters have exactly the argument names as keys; a repeated name takes its last annotation's type and description |
| `SchemaTranslator.AnnotatedFunctionToChatCompletionFunction` | examples/next-openai/app/copilot-context.tsx:147-160 | the loop over the argument annotations builds exactly the schema ChatCompletionFunctionOf describes |
| `SchemaTranslator.EntryPointsToChatCompletionFunctions` | examples/next-openai/app/copilot-context.tsx:138-142 | one schema per input function, same order, each exactly the translation of the function at that position |
| `JsonValues.SpreadArguments` | examples/next-openai/app/copilot-context.tsx:115 | spreading a parsed value succeeds exactly for arrays and strings; an array gives its items in order, a string one single-code-point string per code point |
| `CallDispatcher.ByName` | examples/next-openai/app/copilot-context.tsx:103-106 | the name-keyed dictionary has exactly the snapshot's function names as keys; each key holds the last function with that name |
| `CallDispatcher.CallArguments` | examples/next-openai/app/copilot-context.tsx:110-115 | absent or empty argument text gives no arguments; text JSON.parse rejects gives ParseError; otherwise the parsed value is spread, or TypeError when it cannot be |
| `CallDispatcher.Dispatch` | examples/next-openai/app/copilot-context.tsx:102-135 | a call is ignored exactly when no snapshot entry has its name; an invoked function has the called name and is the last snapshot entry with it |
| `CallDispatcher.HandleFunctionCall` | examples/next-openai/app/copilot-context.tsx:102-116 | the handler's loop, lookup, parse and call produce exactly the outcome Dispatch specifies |
| `CallDispatcher.NoArgumentsInvokesWithNone` | examples/next-openai/app/copilot-context.tsx:110-115 | with absent or empty argument text, a known function is invoked once with no arguments |
| `CallDispatcher.ParsedArrayIsPassedInOrder` | examples/next-openai/app/copilot-context.tsx:111-115 | a parsed JSON array is passed as the argument list, element by element, in order |
| `CallDispatcher.ParseFailureInvokesNothing` | examples/next-openai/app/copilot-context.tsx:111-113 | argument text JSON.parse rejects makes the handler fail with ParseError and invoke nothing |
| `CallDispatcher.NonIterableArgumentsFail` | examples/next-openai/app/copilot-context.tsx:115 | a parsed number, object, boolean or null cannot be spread, so the handler fails with TypeError |
| `CallDispatcher.LaterDuplicateWins` | examples/next-openai/app/copilot-context.tsx:104-108 | when two different snapshot entries share the called name and no later entry has it, the later one is invoked and the earlier one is not |
| `CallDispatcher.DispatchAsWritten` | examples/next-openai/app/copilot-context.tsx:108-115 | the source's lookup agrees with Dispatch on every registered name and on every name Object.prototype does not have |
| `CallDispatcher.InheritedNamesFailAsWritten` | examples/next-openai/app/copilot-context.tsx:108-115 | as written, every call whose name only Object.prototype has fails, while Dispatch ignores it |
| `CallDispatcher.InheritedNameThrowsAsWritten` | examples/next-openai/app/copilot-context.tsx:108-115 | as written, a call named `toString` with nothing registered fails with TypeError, while Dispatch ignores it |
| `CopilotContext.GetChatCompletionFunctions` | examples/next-openai/app/copilot-context.tsx:73-75 | one schema per registry entry, in key order, each the translation of that entry's function |
| `CopilotContext.SchemasAgreeWithHandler` | examples/next-openai/app/copilot-context.tsx:73-79 | the handler with the corrected own-key lookup acts on a call exactly when some advertised schema carries the call's name (as written, Object.prototype names also fail: `CallDispatcher.InheritedNamesFailAsWritten`) |
| `CopilotContext.HandleWithRegistry` | examples/next-openai/app/copilot-context.tsx:77-79 | the handler built over the registry's value snapshot, with the corrected own-key lookup, ignores a call exactly when no registered function has its name (as written, Object.prototype names also fail: `CallDispatcher.InheritedNamesFailAsWritten`) |
| `CopilotContext.PutThenCallInvokes` | examples/next-openai/app/copilot-context.tsx:35-45 | after setEntryPoint with a new id, a call by the function's name whose argument text parses to an array makes the handler with the corrected own-key lookup invoke that function with the array's items |
| `CopilotContext.SchemasAfterPut` | examples/next-openai/app/copilot-context.tsx:35-45 | after setEntryPoint the schema list gains one schema at the end (new id) or has one replaced in place (known id) |
| `CopilotContext.RemovedFunctionIsIgnored` | examples/next-openai/app/copilot-context.tsx:47-53 | once the only entry point with a name is removed, the handler with the corrected own-key lookup ignores a call by that name (as written, a name Object.prototype also has fails instead: `CallDispatcher.InheritedNamesFailAsWritten`) |

## Left out

- The React wiring is not modelled: `createContext`, the provider component, `useState`, `useCallback` memoisation and the JSX (lines 20-33, 81-96). The registry is an explicit value, and queued updates are `EntryPoints.ApplyAll`.
- `getContextString`, `addContext` and `removeContext` (lines 55-71) are not modelled. They delegate to `./use-tree`, which is not part of this model, so the context tree and its flattening are out.
- `JSON.parse` (line 112) is the parameter `parse`, because it is a library call. Parsed numbers keep their literal text.
- The awaited implementation (line 115) is recorded as `Invoked(fn, args)`, because the closure is foreign code. What it returns, and any error it throws, are not modelled.
- The `chatMessages` argument of the handler is not modelled, because it is unused (line 102).
- The commented-out response construction (lines 117-133) is not modelled, because it is dead code.
- The asynchronous execution of the handler is not modelled. The handler is modelled as one step over a fixed snapshot.
- `EntryPoints.Put`: the key order is weaker than JavaScript's for integer-like ids. JavaScript lists ids that are array indices (such as `"0"` or `"17"`) before all other keys, in ascending numeric order. The model keeps insertion order for every id.
- `SchemaTranslator.ChatCompletionFunctionOf`: an argument named `__proto__` is treated as an ordinary key. In JavaScript, that assignment replaces the prototype of `parameters` instead of adding a key.
- `CallDispatcher.ByName` and `CallDispatcher.Dispatch`: a function named `__proto__` is treated as an ordinary key. In JavaScript, that assignment replaces the dictionary's prototype, and later lookups then read that function's own fields.
- `JsonValues.SpreadArguments`: strings are sequences of Unicode scalar values, not JavaScript's UTF-16 code units. A lone surrogate, which `JSON.parse` yields from text such as `"\ud800"`, cannot be represented, and spreading such a string (which iterates code points) is not modelled.

## Findings

| source | as written | input that shows it | evidently intended | confidence | as-written member | corrected member |
|---|---|---|---|---|---|---|
| examples/next-openai/app/copilot-context.tsx:108-115 | `entrypointsByFunctionName[functionCall.name]` also finds members inherited from Object.prototype. The truthiness test passes, `.implementation` is undefined, and the call throws a TypeError. | no function named `toString` is registered, and the call is `{name: "toString"}` with no arguments | a name with no registered function is ignored, with no error (own-key lookup) | high; not executed | `CallDispatcher.DispatchAsWritten` (shown by `CallDispatcher.InheritedNameThrowsAsWritten` and `CallDispatcher.InheritedNamesFailAsWritten`) | `CallDispatcher.Dispatch` (loop form `CallDispatcher.HandleFunctionCall`) |
