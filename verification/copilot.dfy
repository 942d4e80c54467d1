/**
 * The provider's read surface over the registry: the schema list and the
 * function-call handler, both derived from the same value snapshot. The
 * handler here is the corrected one, whose lookup sees only the names the
 * snapshot defines; the handler as written also answers names inherited from
 * Object.prototype (CallDispatcher.DispatchAsWritten and
 * CallDispatcher.InheritedNamesFailAsWritten).
 */
module CopilotContext {
  import opened Wrappers
  import opened JsonValues
  import opened Annotations
  import opened EntryPoints
  import opened SchemaTranslator
  import opened CallDispatcher
  import Dictionary

  /** `getChatCompletionFunctions()`: translate the current values, in key order. */
  function GetChatCompletionFunctions(r: Registry): (ss: seq<ChatCompletionFunction>)
    ensures |ss| == |r|
    ensures forall i :: 0 <= i < |r| ==> ss[i] == ChatCompletionFunctionOf(r[i].fn)
  {
    EntryPointsToChatCompletionFunctions(Values(r))
  }

  /**
   * `getFunctionCallHandler()(_, call)` with the corrected own-key lookup:
   * dispatch against the values at the time the handler was built.
   */
  function HandleWithRegistry(r: Registry, call: FunctionCall, parse: string -> Option<Json>): (o: Outcome)
    ensures o.Ignored? <==> forall i :: 0 <= i < |r| ==> r[i].fn.name != call.name
  {
    Dispatch(Values(r), call, parse)
  }

  /**
   * The schema list and the corrected handler agree: a call is acted on
   * exactly when some advertised schema carries its name.
   */
  lemma SchemasAgreeWithHandler(r: Registry, call: FunctionCall, parse: string -> Option<Json>)
    ensures !HandleWithRegistry(r, call, parse).Ignored? <==>
            exists i :: 0 <= i < |r| && GetChatCompletionFunctions(r)[i].name == call.name
  {
    var ss := GetChatCompletionFunctions(r);
    var vs := Values(r);
    if Registered(vs, call.name) {
      var i :| 0 <= i < |vs| && vs[i].name == call.name;
      assert ss[i].name == call.name;
    }
    if exists i :: 0 <= i < |r| && ss[i].name == call.name {
      var i :| 0 <= i < |r| && ss[i].name == call.name;
      assert vs[i].name == call.name;
    }
  }

  /**
   * After setEntryPoint the schema list changes at one place: a known id's
   * schema is replaced where it stood, a new id's schema is appended.
   */
  lemma SchemasAfterPut(r: Registry, id: string, f: AnnotatedFunction)
    ensures !HasId(r, id) ==>
              GetChatCompletionFunctions(Put(r, id, f)) == GetChatCompletionFunctions(r) + [ChatCompletionFunctionOf(f)]
    ensures HasId(r, id) ==>
              GetChatCompletionFunctions(Put(r, id, f)) ==
              GetChatCompletionFunctions(r)[IndexOf(r, id) := ChatCompletionFunctionOf(f)]
  {
  }

  /** After removeEntryPoint the corrected handler ignores every call that only the removed entry point answered. */
  lemma RemovedFunctionIsIgnored(r: Registry, id: string, call: FunctionCall, parse: string -> Option<Json>)
    requires forall i :: 0 <= i < |r| && r[i].id != id ==> r[i].fn.name != call.name
    ensures HandleWithRegistry(Remove(r, id), call, parse) == Ignored
  {
    var r' := Remove(r, id);
    forall k | 0 <= k < |r'| ensures r'[k].fn.name != call.name {
      RemoveKeepsOthers(r, id, k);
    }
  }

  /**
   * Registering a function under a new id and then calling it by its name,
   * with argument text that parses to an array, makes the corrected handler
   * invoke that function once with the array's items in order.
   */
  lemma PutThenCallInvokes(r: Registry, id: string, f: AnnotatedFunction, t: string,
                           parse: string -> Option<Json>, items: seq<Json>)
    requires !HasId(r, id) && t != "" && parse(t) == Some(JArray(items))
    ensures HandleWithRegistry(Put(r, id, f), FunctionCall(f.name, Some(t)), parse) == Invoked(f, items)
  {
    PutValues(r, id, f);
    var vs := Values(Put(r, id, f));
    assert vs[|vs| - 1] == f;
    assert Dictionary.LastIndexOf(vs, FunctionName, f.name) == |vs| - 1;
  }
}
