/** The shape of an entry point as the registry, the translator and the dispatcher see it. */
module Annotations {

  /** Metadata of one positional argument. */
  datatype ArgumentAnnotation = ArgumentAnnotation(name: string, typ: string, description: string)

  /** Identity of the caller-supplied implementation closure; the closure itself is not modelled. */
  type ImplementationRef = nat

  /** A callable operation plus the metadata the chat-completion service is told about. */
  datatype AnnotatedFunction = AnnotatedFunction(
    name: string,
    description: string,
    argumentAnnotations: seq<ArgumentAnnotation>,
    implementation: ImplementationRef)
}
