/**
 The collaborators of S4 primitive dispatch, seen only through the
 interface the dispatch entry point uses: the generic descriptor, the method
 lookup table with its argument matcher and method selector, and the ranked
 winner. Their internals (distance calculation, ranking, argument matching)
 are abstract: the lookup table carries them as functions.
 */
module S4Types {
  import opened Sexps

  /** A dispatch target: operation name, optional group, primitive or closure origin. */
  datatype Generic = Generic(name: string, group: Option<string>, isPrimitive: bool)

  /** `Generic.primitive(opName, group)`. */
  function PrimitiveGeneric(opName: string, group: Option<string>): Generic
  {
    Generic(opName, group, true)
  }

  /** A registered S4 method: its defining closure and whether it was registered for a group generic. */
  datatype Method = Method(definition: Closure, isGroupGeneric: bool)

  /**
   The winner of method selection: the selected method, whether every
   argument matched its declared class exactly, and the function the winner
   reports for itself (`getFunction()`, here `fn`), which is kept apart from the
   method's definition because nothing here fixes how the two relate.
   */
  datatype RankedMethod = RankedMethod(candidate: Method, isExact: bool, fn: Closure)

  /** An evaluation environment (`rho`), passed through to the evaluator untouched. */
  datatype Env = Env(id: nat)

  /** The call's arguments bound to the generic's formals, as named promises ready to pass on. */
  datatype CallingArguments = CallingArguments(promisedArgs: seq<Arg>)

  /**
   The snapshot of S4 methods registered for one generic: whether there are
   none, how actual arguments (receiver first) are bound to the generic's
   formals, and which method, if any, ranks best for a set of bound arguments
   under the context's class hierarchy.
   */
  datatype MethodLookupTable = MethodLookupTable(
    isEmpty: bool,
    bindArguments: (Env, Sexp, seq<Arg>) -> CallingArguments,
    selectMethod: CallingArguments -> Option<RankedMethod>)

  /** The evaluation context, reduced to what dispatch asks of it: the lookup table of a generic. */
  datatype Context = Context(lookupTable: Generic -> MethodLookupTable)
}
