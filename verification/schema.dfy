/**
 * Translation of entry points into the function schemas the chat-completion
 * service is told about: name, description, and a `parameters` dictionary
 * from argument name to its type and description.
 */
module SchemaTranslator {
  import opened Annotations
  import Dictionary

  datatype ParameterSchema = ParameterSchema(typ: string, description: string)

  datatype ChatCompletionFunction = ChatCompletionFunction(
    name: string,
    description: string,
    parameters: map<string, ParameterSchema>)

  function ArgumentName(a: ArgumentAnnotation): string
  {
    a.name
  }

  function ParameterOf(a: ArgumentAnnotation): ParameterSchema
  {
    ParameterSchema(a.typ, a.description)
  }

  /** The names of a function's arguments. */
  function ArgumentNames(f: AnnotatedFunction): set<string>
  {
    Dictionary.KeysOf(f.argumentAnnotations, ArgumentName)
  }

  /**
   * The schema of one function. Its parameters are keyed by exactly the
   * argument names; a name that occurs more than once takes the type and
   * description of its last occurrence.
   */
  function ChatCompletionFunctionOf(f: AnnotatedFunction): (s: ChatCompletionFunction)
    ensures s.name == f.name && s.description == f.description
    ensures s.parameters.Keys == ArgumentNames(f)
    ensures forall i :: 0 <= i < |f.argumentAnnotations| &&
                        Dictionary.LastIndexOf(f.argumentAnnotations, ArgumentName, f.argumentAnnotations[i].name) == i ==>
                        s.parameters[f.argumentAnnotations[i].name] == ParameterOf(f.argumentAnnotations[i])
  {
    Dictionary.BuildKeys(f.argumentAnnotations, ArgumentName, ParameterOf);
    ChatCompletionFunction(f.name, f.description, Dictionary.Build(f.argumentAnnotations, ArgumentName, ParameterOf))
  }

  /** The loop that fills `parameters`, then the object literal around it. */
  method AnnotatedFunctionToChatCompletionFunction(f: AnnotatedFunction) returns (s: ChatCompletionFunction)
    ensures s == ChatCompletionFunctionOf(f)
  {
    var args := f.argumentAnnotations;
    var parameters: map<string, ParameterSchema> := map[];
    for i := 0 to |args|
      invariant parameters == Dictionary.Build(args[..i], ArgumentName, ParameterOf)
    {
      var arg := args[i];
      Dictionary.BuildSnoc(args[..i], arg, ArgumentName, ParameterOf);
      assert args[..i + 1] == args[..i] + [arg];
      parameters := parameters[arg.name := ParameterSchema(arg.typ, arg.description)];
    }
    assert args[..|args|] == args;
    s := ChatCompletionFunction(f.name, f.description, parameters);
  }

  /** `entryPoints.map(annotatedFunctionToChatCompletionFunction)`: one schema per function, in order. */
  function EntryPointsToChatCompletionFunctions(fs: seq<AnnotatedFunction>): (ss: seq<ChatCompletionFunction>)
    ensures |ss| == |fs|
    ensures forall i :: 0 <= i < |fs| ==> ss[i] == ChatCompletionFunctionOf(fs[i])
  {
    seq(|fs|, i requires 0 <= i < |fs| => ChatCompletionFunctionOf(fs[i]))
  }
}
