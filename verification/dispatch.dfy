/**
 * The function-call handler built over a snapshot of the registered entry
 * points. It resolves a call by the function's `name` (not by registration
 * id), parses the argument text, and reports which implementation it would
 * invoke with which arguments. The implementation's result is never part of
 * the outcome: the handler completes without a value.
 */
module CallDispatcher {
  import opened Wrappers
  import opened JsonValues
  import opened Annotations
  import Dictionary

  /** What the model asks for: a function name and, optionally, the argument list as JSON text. */
  datatype FunctionCall = FunctionCall(name: string, arguments: Option<string>)

  datatype DispatchError =
    | ParseError   // JSON.parse threw on the argument text
    | TypeError    // the parsed value is not iterable, or the looked-up member is not callable

  /** How one invocation of the handler ends. */
  datatype Outcome =
    | Ignored                                       // no entry point of that name: nothing happens
    | Invoked(fn: AnnotatedFunction, args: seq<Json>) // `fn.implementation(...args)` is awaited
    | Failed(error: DispatchError)                  // the handler rejects; nothing was invoked

  function FunctionName(f: AnnotatedFunction): string
  {
    f.name
  }

  function Self(f: AnnotatedFunction): AnnotatedFunction
  {
    f
  }

  /** Some entry point of the snapshot has this name. */
  predicate Registered(snapshot: seq<AnnotatedFunction>, name: string)
  {
    exists i :: 0 <= i < |snapshot| && snapshot[i].name == name
  }

  /**
   * `entrypointsByFunctionName`, filled from the snapshot in order: keyed by
   * exactly the functions' names, each key holding the last function with it.
   */
  function ByName(snapshot: seq<AnnotatedFunction>): (m: map<string, AnnotatedFunction>)
    ensures forall k :: k in m <==> Registered(snapshot, k)
    ensures forall k :: k in m ==>
              var i := Dictionary.LastIndexOf(snapshot, FunctionName, k); 0 <= i && m[k] == snapshot[i] && m[k].name == k
  {
    var m := Dictionary.Build(snapshot, FunctionName, Self);
    assert forall k :: Registered(snapshot, k) ==> k in m by {
      forall k | Registered(snapshot, k) ensures k in m {
        var i :| 0 <= i < |snapshot| && snapshot[i].name == k;
        assert FunctionName(snapshot[i]) == k;
      }
    }
    m
  }

  /**
   * The list the implementation is called with: empty when `arguments` is
   * absent or the empty string (both falsy), otherwise `JSON.parse` of it
   * (`parse` returns None where JSON.parse throws) spread into the call.
   */
  function CallArguments(call: FunctionCall, parse: string -> Option<Json>): (r: Result<seq<Json>, DispatchError>)
    ensures call.arguments.None? || call.arguments == Some("") ==> r == Success([])
    ensures call.arguments.Some? && call.arguments.value != "" ==>
              match parse(call.arguments.value)
              case None => r == Failure(ParseError)
              case Some(v) => r == if SpreadArguments(v).Some? then Success(SpreadArguments(v).value) else Failure(TypeError)
  {
    if call.arguments.None? || call.arguments.value == "" then Success([])
    else match parse(call.arguments.value)
      case None => Failure(ParseError)
      case Some(v) =>
        match SpreadArguments(v)
        case None => Failure(TypeError)
        case Some(args) => Success(args)
  }

  /**
   * The handler, as the specification of HandleFunctionCall. A call is
   * ignored exactly when no entry point has its name; otherwise the entry
   * point invoked is the last one in the snapshot with that name.
   */
  function Dispatch(snapshot: seq<AnnotatedFunction>, call: FunctionCall, parse: string -> Option<Json>): (o: Outcome)
    ensures o.Ignored? <==> !Registered(snapshot, call.name)
    ensures o.Invoked? ==>
              var i := Dictionary.LastIndexOf(snapshot, FunctionName, call.name);
              0 <= i && o.fn == snapshot[i] && o.fn.name == call.name
  {
    var byName := ByName(snapshot);
    if call.name !in byName then
      assert forall i :: 0 <= i < |snapshot| ==> FunctionName(snapshot[i]) != call.name;
      Ignored
    else
      match CallArguments(call, parse)
      case Failure(e) => Failed(e)
      case Success(args) => Invoked(byName[call.name], args)
  }

  /**
   * The handler's body: the loop that fills the name-keyed dictionary, an
   * own-key lookup (the intended behaviour; the source's own lookup, which
   * also sees inherited members, is DispatchAsWritten), the parse and the call.
   */
  method HandleFunctionCall(snapshot: seq<AnnotatedFunction>, call: FunctionCall, parse: string -> Option<Json>)
    returns (o: Outcome)
    ensures o == Dispatch(snapshot, call, parse)
  {
    var byName: map<string, AnnotatedFunction> := map[];
    for i := 0 to |snapshot|
      invariant byName == Dictionary.Build(snapshot[..i], FunctionName, Self)
    {
      Dictionary.BuildSnoc(snapshot[..i], snapshot[i], FunctionName, Self);
      assert snapshot[..i + 1] == snapshot[..i] + [snapshot[i]];
      byName := byName[snapshot[i].name := snapshot[i]];
    }
    assert snapshot[..|snapshot|] == snapshot;
    if call.name !in byName {
      return Ignored;
    }
    var fn := byName[call.name];
    var args: seq<Json> := [];
    if call.arguments.Some? && call.arguments.value != "" {
      var parsed := parse(call.arguments.value);
      if parsed.None? {
        return Failed(ParseError);
      }
      var spread := SpreadArguments(parsed.value);
      if spread.None? {
        return Failed(TypeError);
      }
      args := spread.value;
    }
    o := Invoked(fn, args);
  }

  // What a dispatch does once the name is known.

  /** With no argument text (absent or empty) the function is invoked once, with no arguments. */
  lemma NoArgumentsInvokesWithNone(snapshot: seq<AnnotatedFunction>, call: FunctionCall, parse: string -> Option<Json>)
    requires Registered(snapshot, call.name)
    requires call.arguments == None || call.arguments == Some("")
    ensures Dispatch(snapshot, call, parse).Invoked?
    ensures Dispatch(snapshot, call, parse).args == []
  {
  }

  /** A JSON array of arguments is passed to the implementation element by element, in order. */
  lemma ParsedArrayIsPassedInOrder(snapshot: seq<AnnotatedFunction>, call: FunctionCall,
                                   parse: string -> Option<Json>, items: seq<Json>)
    requires Registered(snapshot, call.name)
    requires call.arguments.Some? && call.arguments.value != ""
    requires parse(call.arguments.value) == Some(JArray(items))
    ensures Dispatch(snapshot, call, parse).Invoked?
    ensures Dispatch(snapshot, call, parse).args == items
  {
  }

  /** Argument text JSON.parse rejects makes the handler fail with that error, and nothing is invoked. */
  lemma ParseFailureInvokesNothing(snapshot: seq<AnnotatedFunction>, call: FunctionCall, parse: string -> Option<Json>)
    requires Registered(snapshot, call.name)
    requires call.arguments.Some? && call.arguments.value != ""
    requires parse(call.arguments.value) == None
    ensures Dispatch(snapshot, call, parse) == Failed(ParseError)
  {
  }

  /** A parsed value that cannot be spread (a number, an object, null, a boolean) fails with a TypeError. */
  lemma NonIterableArgumentsFail(snapshot: seq<AnnotatedFunction>, call: FunctionCall,
                                 parse: string -> Option<Json>, v: Json)
    requires Registered(snapshot, call.name)
    requires call.arguments.Some? && call.arguments.value != ""
    requires parse(call.arguments.value) == Some(v) && !v.JArray? && !v.JString?
    ensures Dispatch(snapshot, call, parse) == Failed(TypeError)
  {
  }

  /**
   * When two different entry points `i < j` share the called name and none
   * after `j` has it, a call by that name reaches `j` and never `i`: the
   * later duplicate wins.
   */
  lemma LaterDuplicateWins(snapshot: seq<AnnotatedFunction>, call: FunctionCall, parse: string -> Option<Json>,
                           i: nat, j: nat)
    requires i < j < |snapshot| && snapshot[i].name == call.name && snapshot[j].name == call.name
    requires snapshot[i] != snapshot[j]
    requires forall k :: j < k < |snapshot| ==> snapshot[k].name != call.name
    requires CallArguments(call, parse).Success?
    ensures Dispatch(snapshot, call, parse) == Invoked(snapshot[j], CallArguments(call, parse).value)
    ensures Dispatch(snapshot, call, parse).fn != snapshot[i]
  {
    assert FunctionName(snapshot[j]) == call.name;
    assert Dictionary.LastIndexOf(snapshot, FunctionName, call.name) == j;
  }

  // The lookup as written: a plain object also answers with inherited members.

  /** The members every plain object inherits from Object.prototype. */
  const ObjectPrototypeMembers: set<string> := {
    "constructor", "hasOwnProperty", "isPrototypeOf", "propertyIsEnumerable",
    "toLocaleString", "toString", "valueOf", "__proto__",
    "__defineGetter__", "__defineSetter__", "__lookupGetter__", "__lookupSetter__"
  }

  /**
   * The handler as the source writes it. `entrypointsByFunctionName[name]`
   * reads through the prototype chain, so a name that no entry point has
   * but Object.prototype does yields a truthy value (a built-in function, or
   * the prototype object itself); its `implementation` member is undefined,
   * so the call that follows the parse throws a TypeError.
   */
  function DispatchAsWritten(snapshot: seq<AnnotatedFunction>, call: FunctionCall, parse: string -> Option<Json>): (o: Outcome)
    ensures call.name !in ObjectPrototypeMembers ==> o == Dispatch(snapshot, call, parse)
    ensures Registered(snapshot, call.name) ==> o == Dispatch(snapshot, call, parse)
  {
    if call.name in ByName(snapshot) || call.name !in ObjectPrototypeMembers then Dispatch(snapshot, call, parse)
    else
      match CallArguments(call, parse)
      case Failure(e) => Failed(e)
      case Success(_) => Failed(TypeError)
  }

  /**
   * A call named `toString` when no entry point has that name: the source
   * throws a TypeError where an unknown name should be ignored.
   */
  lemma InheritedNameThrowsAsWritten(parse: string -> Option<Json>)
    ensures DispatchAsWritten([], FunctionCall("toString", None), parse) == Failed(TypeError)
    ensures Dispatch([], FunctionCall("toString", None), parse) == Ignored
  {
  }

  /**
   * As written, every call whose name only Object.prototype has fails: with
   * the parse error when the argument text is malformed, else a TypeError.
   */
  lemma InheritedNamesFailAsWritten(snapshot: seq<AnnotatedFunction>, call: FunctionCall, parse: string -> Option<Json>)
    requires call.name in ObjectPrototypeMembers && !Registered(snapshot, call.name)
    ensures DispatchAsWritten(snapshot, call, parse).Failed?
    ensures Dispatch(snapshot, call, parse) == Ignored
  {
  }
}
