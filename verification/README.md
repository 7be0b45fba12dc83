# S4 dispatch from primitives (Renjin), modelled in Dafny

Renjin is a JVM interpreter for R. When a builtin such as `+`, `==` or `[<-` runs and S4 methods may be registered for it, `S4.tryS4DispatchFromPrimitive` makes the decision. It looks up the generic's method table and stops at once if the table is empty. Otherwise it binds the call's arguments (receiver first), asks the table to select the best-ranked method, and stops if nothing applies. A winner is then called in one of two ways:

- directly (`context.evaluate`), when `dispatchWithoutMeta` allows it;
- through `ClosureDispatcher.apply`, with a metadata map built by `generateCallMetaData`.

That map binds `.defined`, `.Generic`, `.Method` and `.Methods`. The class also names the symbol under which a class definition is stored (`classNameMetadata`).

The model has four modules:

- `Sexps` (`sexps.dfy`): the R values dispatch inspects. These are interned symbols, attribute pairlists as `seq<Attr>`, closures, R's `length()` and `getAttribute`.
- `Text` (`text.dfy`): Java's `String.contains`, proved equal to "occurs at some index".
- `S4Types` (`s4_types.dfy`): the collaborators, treated as abstract. These are the generic descriptor, the method lookup table (emptiness, argument binding and method selection given as functions), the ranked winner and the context.
- `S4` (`s4.dfy`): the four operations of `S4.java`.

`TryS4DispatchFromPrimitive` returns the outcome (`NoMethod`, `FastCall(closure, args)` or `MetaCall(closure, args, rho, metadata)`). It also returns the ordered list of work steps it performed after building the table: argument matching, class cache, distance calculator, selection, metadata generation, and the call itself.

Symbols are interned in Renjin, so `t == R_defined` compares identities, and the model compares symbol names. The tag and key symbols come from `MethodDispatch.java`, which is not part of this model. Their names are taken as `defined`, `generic`, `.defined` and `.Generic`, as in GNU R's methods package, and `Symbols.SOURCE` as `source`. Because the `source` branch does nothing, its exact name does not change behaviour. `RankedMethod.java` is not part of this model, so the function the winner reports (`getFunction()`, the value of `.Method`) is kept as a field of its own. It is not assumed to equal the definition of the selected method (`getMethod().getDefinition()`), which is the closure actually called.

Call arguments are argument pairlists: each node is a value with an optional name (`x[i = 1]`). The model keeps the names in the input, in the bound arguments and in the recorded call.

The code binds only `.defined`, `.Generic`, `.Method` and `.Methods`. It never binds `.target`, which GNU R's dispatch also provides; the model follows Renjin's code.

## Model

| member | source | states |
|---|---|---|
| S4.TryS4DispatchFromPrimitive | core/src/main/java/org/renjin/s4/S4.java:44-73 | An empty table gives "no method" with no further work: no argument matching, no class cache, no distance calculator. The selection steps run exactly when the table is non-empty. The result is "no method" exactly when the table is empty or selection finds no winner, and then nothing is evaluated and no metadata is built. Metadata is built at most once, and only for the metadata-carrying call. A fast call runs the winner's definition on the bound arguments and requires `DispatchWithoutMeta`. The metadata call requires its negation and passes `rho` and the metadata generated for the winner. Its `.Method` is the winner's reported function, and it is the closure being called whenever that function is the selected method's definition. |
| S4.DispatchWithoutMeta | core/src/main/java/org/renjin/s4/S4.java:75-79 | False whenever `<-` occurs anywhere in the operator name. Otherwise true iff the winner is an exact match of a non-group method or the receiver has a non-empty `.S3Class` attribute. |
| S4.HasS3Class | core/src/main/java/org/renjin/s4/S4.java:76 | True iff the first `.S3Class` node of the receiver's attributes holds a value of non-zero length. |
| Text.Contains | core/src/main/java/org/renjin/s4/S4.java:78 | `opName.contains(pat)` holds iff `pat` occurs at some index of `opName`. |
| Sexps.GetAttribute | core/src/main/java/org/renjin/s4/S4.java:76 | Gives NULL when no node carries the tag. Otherwise gives the value of the first node that does. |
| S4.ScanAttributes | core/src/main/java/org/renjin/s4/S4.java:100-110 | The scan over the definition's attributes binds no key other than `.defined` and `.Generic`. |
| S4.ScanKeepsLastTagged | core/src/main/java/org/renjin/s4/S4.java:100-107 | `.defined` (`.Generic`) is bound iff some node carries the `defined` (`generic`) tag. When bound, it holds the value of the last such node, as repeated `Map.put` does. |
| S4.GenerateCallMetaData | core/src/main/java/org/renjin/s4/S4.java:81-114 | The map's keys lie within `.defined`, `.Generic`, `.Method` and `.Methods`. `.Method` is always the winner's function. `.Methods` is always the symbol `.Primitive("<opName>")`. `.defined` and `.Generic` are present iff a matching tag exists, and each holds the last tagged value. |
| S4.ScanIgnoresOtherTags | core/src/main/java/org/renjin/s4/S4.java:100-110 | Inserting a node whose tag is neither `defined` nor `generic`, at any position, leaves the scanned metadata unchanged. |
| S4.SourceAttributeAddsNothing | core/src/main/java/org/renjin/s4/S4.java:108-109 | A `source` attribute anywhere in the definition's attributes adds nothing to the metadata. |
| S4.MetadataAgreesWithAttribute | core/src/main/java/org/renjin/s4/S4.java:100-107 | When the tag occurs at most once, as in an attribute map, the bound metadata value equals `getAttribute` of that tag. |
| S4.PrimitiveMarkerInjective | core/src/main/java/org/renjin/s4/S4.java:112 | Distinct operator names give distinct `.Methods` symbols. |
| S4.ReplacementAlwaysCarriesMetadata | core/src/main/java/org/renjin/s4/S4.java:64-78 | For any operator name containing `<-` and any winner, the call carries metadata. `.Method` is the winner's function and `.Methods` is `.Primitive("<opName>")`. This holds whatever the exactness, group status or `.S3Class`. |
| S4.ExactMatchIsFast | core/src/main/java/org/renjin/s4/S4.java:64-67 | For any operator name without `<-`, an exact match of a non-group method is called directly, without metadata. |
| S4.S3ReceiverIsFast | core/src/main/java/org/renjin/s4/S4.java:64-67 | For any operator name without `<-`, a receiver with a non-empty `.S3Class` gets the direct call, whatever the winner. |
| S4.InexactOrGroupCarriesMetadata | core/src/main/java/org/renjin/s4/S4.java:68-72 | For any operator name without `<-`, a group method or an inexact match, on a receiver without a non-empty `.S3Class`, goes through the metadata-carrying call. |
| S4.ClassNameMetadata | core/src/main/java/org/renjin/s4/S4.java:139-141 | The symbol name is `.__C__` followed by exactly the class name. |
| S4.ClassNameOf | core/src/main/java/org/renjin/s4/S4.java:139-141 | Decoding succeeds iff the symbol name starts with `.__C__`. |
| S4.ClassNameRoundTrip | core/src/main/java/org/renjin/s4/S4.java:139-141 | Decoding the symbol of a class name gives that class name back. |
| S4.ClassNameOfInverts | core/src/main/java/org/renjin/s4/S4.java:139-141 | Any symbol with the `.__C__` prefix is the class symbol of the name it decodes to. |
| S4.ClassNameMetadataInjective | core/src/main/java/org/renjin/s4/S4.java:139-141 | Distinct class names give distinct symbols. |

## Left out

- `getSuperClassesS4` and `computeDataClassesS4` are not modelled. They look up the methods namespace and environment variables and force promises, which is evaluator work with no decision logic.
- `context.evaluate` and `ClosureDispatcher.apply` (the evaluator) are not modelled. The model records only which call is made, with which closure, arguments, environment and metadata.
- The internals of `MethodLookupTable`, `CallingArguments`, `S4ClassCache`, `DistanceCalculator` and `RankedMethod` are left abstract, because their source is not part of this model. The model promises nothing about how classes are compared or how the table ranks candidates and breaks ties; it takes whatever winner the table selects. The table's emptiness is a boolean, argument binding is a function, selection is a function returning an optional winner, and exactness and group status are fields.
- S4.TryS4DispatchFromPrimitive: `.Method` is the closure being called only when the winner's `getFunction()` returns the selected method's definition. `RankedMethod.java` is not part of this model, so this is stated as a hypothesis, not promised.
- Argument matching that throws (a malformed call) is not modelled. The binding function is total; in Java such an exception simply propagates out of dispatch.
- The `package`-attribute behaviour of `.target` and `.defined` described in the comment at S4.java:85-99 is not modelled. The code under that comment does not implement it.
- A Java `null` group is modelled as `None` of an optional group name.
- `JimpleStatement.java` in the gcc bridge is not modelled. It only appends `;` to a string and has nothing to do with dispatch.
