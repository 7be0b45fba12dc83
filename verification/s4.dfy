/**
 S4 dispatch from a primitive (arithmetic, comparison, indexing builtins):
 whether an S4 method applies, whether it is called directly or through the
 closure dispatcher with dispatch metadata, what that metadata holds, and the
 symbol under which a class definition is stored.
 */
module S4 {
  import opened Sexps
  import opened Text
  import opened S4Types

  /** The marker of a replacement form such as `[<-` or `$<-`. */
  const AssignMarker: string := "<-"

  /** The receiver attribute that marks an S4 object extending an S3 class. */
  const S3ClassAttribute: Symbol := Symbol(".S3Class")

  /** Tags of the method definition's attributes that feed the metadata. */
  const DefinedTag: Symbol := Symbol("defined")
  const GenericTag: Symbol := Symbol("generic")
  const SourceTag: Symbol := Symbol("source")

  /** The symbols bound in a method body's frame when metadata is passed. */
  const DotDefined: Symbol := Symbol(".defined")
  const DotGeneric: Symbol := Symbol(".Generic")
  const DotMethod: Symbol := Symbol(".Method")
  const DotMethods: Symbol := Symbol(".Methods")

  /** Prefix of the symbol a class definition is stored under. */
  const ClassPrefix: string := ".__C__"

  /** Work a dispatch attempt performs after building the lookup table, in order. */
  datatype Step =
    | MatchArguments
    | BuildClassCache
    | BuildDistanceCalculator
    | SelectMethod
    | GenerateMetadata
    | Evaluate
    | ApplyWithMetadata

  /** What a dispatch attempt hands to the evaluator, if anything. */
  datatype Outcome =
    | NoMethod
      // `context.evaluate(new FunctionCall(closure, args))`
    | FastCall(closure: Closure, args: seq<Arg>)
      // `ClosureDispatcher.apply(context, rho, call, closure, args, metadata)`
    | MetaCall(closure: Closure, args: seq<Arg>, rho: Env, metadata: map<Symbol, Sexp>)

  datatype Dispatch = Dispatch(outcome: Outcome, steps: seq<Step>)

  /** The lookup table of the primitive generic `opName` in `group`. */
  function TableFor(context: Context, group: Option<string>, opName: string): MethodLookupTable
  {
    context.lookupTable(PrimitiveGeneric(opName, group))
  }

  /** The call's arguments, receiver first, bound by the table's argument matcher. */
  function BoundArguments(table: MethodLookupTable, rho: Env, source: Sexp, args: seq<Arg>): CallingArguments
  {
    table.bindArguments(rho, source, args)
  }

  /** The method the table ranks best for the call, if any. */
  function Selection(table: MethodLookupTable, rho: Env, source: Sexp, args: seq<Arg>): Option<RankedMethod>
  {
    table.selectMethod(BoundArguments(table, rho, source, args))
  }

  /** The steps that build the arguments, class cache and distance calculator and run the selector. */
  const SelectionSteps: seq<Step> := [MatchArguments, BuildClassCache, BuildDistanceCalculator, SelectMethod]

  /**
   Attempts S4 dispatch for the primitive `opName` applied to receiver
   `source` and arguments `args`. An empty lookup table ends the attempt before
   any argument matching; a selection with no winner ends it with no call; a
   winner is called directly when `DispatchWithoutMeta` allows it and through
   the closure dispatcher with freshly generated metadata otherwise.
   */
  function TryS4DispatchFromPrimitive(context: Context, source: Sexp, args: seq<Arg>, rho: Env,
                                      group: Option<string>, opName: string): (r: Dispatch)
    // the cheap exit: nothing but the table is built
    ensures TableFor(context, group, opName).isEmpty ==> r.outcome.NoMethod? && r.steps == []
    // arguments, class cache and calculator are built exactly when the table is non-empty
    ensures forall s :: s in SelectionSteps ==>
              (s in r.steps <==> !TableFor(context, group, opName).isEmpty)
    // "no method" exactly when the table is empty or nothing is selected
    ensures r.outcome.NoMethod? <==>
              (TableFor(context, group, opName).isEmpty
               || Selection(TableFor(context, group, opName), rho, source, args).None?)
    // with no method nothing is evaluated and no metadata is built
    ensures r.outcome.NoMethod? ==>
              GenerateMetadata !in r.steps && Evaluate !in r.steps && ApplyWithMetadata !in r.steps
    // metadata is built at most once, and only for the metadata-carrying call
    ensures multiset(r.steps)[GenerateMetadata] <= 1
    ensures GenerateMetadata in r.steps <==> r.outcome.MetaCall?
    ensures Evaluate in r.steps <==> r.outcome.FastCall?
    // the fast call runs the winner's definition on the bound arguments, with no metadata
    ensures r.outcome.FastCall? ==>
              var table := TableFor(context, group, opName);
              var winner := Selection(table, rho, source, args);
              && !table.isEmpty
              && winner.Some?
              && DispatchWithoutMeta(opName, source, winner.value)
              && r.outcome.closure == winner.value.candidate.definition
              && r.outcome.args == BoundArguments(table, rho, source, args).promisedArgs
    // otherwise the winner's definition runs in `rho` with the metadata generated for it
    ensures r.outcome.MetaCall? ==>
              var table := TableFor(context, group, opName);
              var winner := Selection(table, rho, source, args);
              && !table.isEmpty
              && winner.Some?
              && !DispatchWithoutMeta(opName, source, winner.value)
              && r.outcome.closure == winner.value.candidate.definition
              && r.outcome.args == BoundArguments(table, rho, source, args).promisedArgs
              && r.outcome.rho == rho
              && r.outcome.metadata == GenerateCallMetaData(winner.value, opName)
              && r.outcome.metadata[DotMethod] == Fn(winner.value.fn)
              && (winner.value.fn == winner.value.candidate.definition ==>
                    r.outcome.metadata[DotMethod] == Fn(r.outcome.closure))
  {
    var table := TableFor(context, group, opName);
    if table.isEmpty then
      Dispatch(NoMethod, [])
    else
      var arguments := BoundArguments(table, rho, source, args);
      match table.selectMethod(arguments)
      case None =>
        Dispatch(NoMethod, SelectionSteps)
      case Some(selected) =>
        var definition := selected.candidate.definition;
        if DispatchWithoutMeta(opName, source, selected) then
          Dispatch(FastCall(definition, arguments.promisedArgs), SelectionSteps + [Evaluate])
        else
          var metadata := GenerateCallMetaData(selected, opName);
          Dispatch(MetaCall(definition, arguments.promisedArgs, rho, metadata),
                   SelectionSteps + [GenerateMetadata, ApplyWithMetadata])
  }

  /** The receiver carries a `.S3Class` attribute of non-zero length. */
  function HasS3Class(source: Sexp): (r: bool)
    ensures r <==> exists i :: FirstTagged(Attributes(source), S3ClassAttribute, i)
                              && Length(Attributes(source)[i].value) != 0
  {
    var attrs := Attributes(source);
    TaggedHasFirst(attrs, S3ClassAttribute);
    Length(GetAttribute(attrs, S3ClassAttribute)) != 0
  }

  /**
   Whether the winner may be called without dispatch metadata: never for a
   replacement form, and otherwise when the winner is an exact match of a
   method that was not registered for a group generic, or when the receiver
   extends an S3 class.
   */
  function DispatchWithoutMeta(opName: string, source: Sexp, rank: RankedMethod): (r: bool)
    ensures (exists i :: OccursAt(opName, AssignMarker, i)) ==> !r
    ensures !(exists i :: OccursAt(opName, AssignMarker, i)) ==>
              (r <==> (!rank.candidate.isGroupGeneric && rank.isExact) || HasS3Class(source))
  {
    var hasS3Class := HasS3Class(source);
    var genericExact := !rank.candidate.isGroupGeneric && rank.isExact;
    !Contains(opName, AssignMarker) && (genericExact || hasS3Class)
  }

  /** The symbol name `.Primitive("<opName>")` bound to `.Methods`. */
  function PrimitiveMarker(opName: string): string
  {
    ".Primitive(\"" + opName + "\")"
  }

  /**
   One step of the scan over the definition's attributes: a `defined` node
   sets `.defined`, a `generic` node sets `.Generic`, overwriting any earlier
   value; every other node leaves the map as it is. (The source tests for a
   `source` node too, and does nothing with it.)
   */
  function RecordAttribute(metadata: map<Symbol, Sexp>, node: Attr): map<Symbol, Sexp>
  {
    if node.tag == DefinedTag then metadata[DotDefined := node.value]
    else if node.tag == GenericTag then metadata[DotGeneric := node.value]
    else metadata
  }

  /** The metadata the scan has built after visiting every node of `attrs`, first to last. */
  function ScanAttributes(attrs: seq<Attr>): (m: map<Symbol, Sexp>)
    ensures m.Keys <= {DotDefined, DotGeneric}
    decreases |attrs|
  {
    if attrs == [] then map[]
    else RecordAttribute(ScanAttributes(attrs[..|attrs| - 1]), attrs[|attrs| - 1])
  }

  /** `key` is the metadata symbol fed by attribute tag `tag`. */
  predicate FedBy(key: Symbol, tag: Symbol)
  {
    (key == DotDefined && tag == DefinedTag) || (key == DotGeneric && tag == GenericTag)
  }

  /** A node tagged `tag` sets `key`; any other node leaves `key` alone. */
  lemma RecordAttributeOnKey(metadata: map<Symbol, Sexp>, node: Attr, key: Symbol, tag: Symbol)
    requires FedBy(key, tag)
    ensures node.tag == tag ==> key in RecordAttribute(metadata, node)
                                && RecordAttribute(metadata, node)[key] == node.value
    ensures node.tag != tag ==> (key in RecordAttribute(metadata, node) <==> key in metadata)
    ensures node.tag != tag && key in metadata ==> RecordAttribute(metadata, node)[key] == metadata[key]
  {
  }

  /** Extending `prefix` by a node not tagged `tag` keeps its `tag` occurrences, and its last one. */
  lemma ExtendUntagged(prefix: seq<Attr>, last: Attr, tag: Symbol)
    requires last.tag != tag
    ensures (exists i :: Tagged(prefix, tag, i)) <==> (exists i :: Tagged(prefix + [last], tag, i))
    ensures forall i :: LastTagged(prefix, tag, i) ==> LastTagged(prefix + [last], tag, i)
  {
    var attrs := prefix + [last];
    if i :| Tagged(attrs, tag, i) {
      assert Tagged(prefix, tag, i);
    }
    if i :| Tagged(prefix, tag, i) {
      assert Tagged(attrs, tag, i);
    }
  }

  /**
   The scan binds `.defined` (`.Generic`) exactly when some node carries the
   `defined` (`generic`) tag, and to the value of the last such node.
   */
  lemma {:induction false} ScanKeepsLastTagged(attrs: seq<Attr>, key: Symbol, tag: Symbol)
    requires FedBy(key, tag)
    ensures key in ScanAttributes(attrs) <==> exists i :: Tagged(attrs, tag, i)
    ensures key in ScanAttributes(attrs) ==>
              exists i :: LastTagged(attrs, tag, i) && attrs[i].value == ScanAttributes(attrs)[key]
    decreases |attrs|
  {
    if attrs != [] {
      var n := |attrs|;
      var prefix := attrs[..n - 1];
      var last := attrs[n - 1];
      assert attrs == prefix + [last];
      ScanKeepsLastTagged(prefix, key, tag);
      var before := ScanAttributes(prefix);
      var after := ScanAttributes(attrs);
      assert after == RecordAttribute(before, last);
      RecordAttributeOnKey(before, last, key, tag);
      if last.tag == tag {
        assert LastTagged(attrs, tag, n - 1);
        assert Tagged(attrs, tag, n - 1);
      } else {
        ExtendUntagged(prefix, last, tag);
        if key in before {
          var i :| LastTagged(prefix, tag, i) && prefix[i].value == before[key];
          assert LastTagged(attrs, tag, i);
        }
      }
    }
  }

  /**
   The metadata passed to the closure dispatcher: `.defined` and `.Generic`
   from the definition's attributes, `.Method` bound to the winner's function
   and `.Methods` to the symbol `.Primitive("<opName>")`.
   */
  function GenerateCallMetaData(winner: RankedMethod, opName: string): (m: map<Symbol, Sexp>)
    ensures m.Keys <= {DotDefined, DotGeneric, DotMethod, DotMethods}
    ensures DotMethod in m && m[DotMethod] == Fn(winner.fn)
    ensures DotMethods in m && m[DotMethods] == Sym(Symbol(PrimitiveMarker(opName)))
    ensures forall key, tag | FedBy(key, tag) ::
              var attrs := winner.candidate.definition.attributes;
              && (key in m <==> exists i :: Tagged(attrs, tag, i))
              && (key in m ==> exists i :: LastTagged(attrs, tag, i) && attrs[i].value == m[key])
  {
    var attrs := winner.candidate.definition.attributes;
    var scanned := ScanAttributes(attrs);
    ScanKeepsLastTagged(attrs, DotDefined, DefinedTag);
    ScanKeepsLastTagged(attrs, DotGeneric, GenericTag);
    scanned[DotMethod := Fn(winner.fn)][DotMethods := Sym(Symbol(PrimitiveMarker(opName)))]
  }

  /** `classNameMetadata`: the symbol `.__C__<className>` a class definition is stored under. */
  function ClassNameMetadata(className: string): (r: Symbol)
    ensures |r.name| == |ClassPrefix| + |className|
    ensures r.name[..|ClassPrefix|] == ClassPrefix
    ensures r.name[|ClassPrefix|..] == className
  {
    Symbol(ClassPrefix + className)
  }

  /** The class whose definition symbol is `s`, if `s` has the class-definition prefix. */
  function ClassNameOf(s: Symbol): (r: Option<string>)
    ensures r.Some? <==> |s.name| >= |ClassPrefix| && s.name[..|ClassPrefix|] == ClassPrefix
  {
    if |s.name| >= |ClassPrefix| && s.name[..|ClassPrefix|] == ClassPrefix
    then Some(s.name[|ClassPrefix|..])
    else None
  }

  /** Decoding the class-definition symbol of `className` gives `className` back. */
  lemma ClassNameRoundTrip(className: string)
    ensures ClassNameOf(ClassNameMetadata(className)) == Some(className)
  {
  }

  /** Every symbol with the class-definition prefix is the definition symbol of the class it decodes to. */
  lemma ClassNameOfInverts(s: Symbol)
    requires ClassNameOf(s).Some?
    ensures ClassNameMetadata(ClassNameOf(s).value) == s
  {
  }

  /** Distinct classes are stored under distinct symbols. */
  lemma ClassNameMetadataInjective(c1: string, c2: string)
    requires ClassNameMetadata(c1) == ClassNameMetadata(c2)
    ensures c1 == c2
  {
  }

  /** Distinct operators get distinct `.Methods` markers. */
  lemma PrimitiveMarkerInjective(op1: string, op2: string)
    requires PrimitiveMarker(op1) == PrimitiveMarker(op2)
    ensures op1 == op2
  {
    var m := PrimitiveMarker(op1);
    assert |op1| == |op2|;
    assert op1 == m[12..12 + |op1|];
    assert op2 == PrimitiveMarker(op2)[12..12 + |op2|];
  }

  /** A node whose tag feeds no metadata key, such as a `source` node, changes nothing wherever it sits. */
  lemma {:induction false} ScanIgnoresOtherTags(front: seq<Attr>, node: Attr, back: seq<Attr>)
    requires node.tag != DefinedTag && node.tag != GenericTag
    ensures ScanAttributes(front + [node] + back) == ScanAttributes(front + back)
    decreases |back|
  {
    if back == [] {
      assert front + [node] + back == front + [node];
      assert (front + [node])[..|front|] == front;
      assert front + back == front;
    } else {
      var init := back[..|back| - 1];
      var last := back[|back| - 1];
      ScanIgnoresOtherTags(front, node, init);
      assert (front + [node] + back)[..|front + [node] + back| - 1] == front + [node] + init;
      assert (front + back)[..|front + back| - 1] == front + init;
    }
  }

  /** A `source` attribute on the method definition adds nothing to the metadata. */
  lemma SourceAttributeAddsNothing(front: seq<Attr>, value: Sexp, back: seq<Attr>)
    ensures ScanAttributes(front + [Attr(SourceTag, value)] + back) == ScanAttributes(front + back)
  {
    assert SourceTag.name[0] != DefinedTag.name[0];
    assert SourceTag.name[0] != GenericTag.name[0];
    ScanIgnoresOtherTags(front, Attr(SourceTag, value), back);
  }

  /** No two nodes of `attrs` carry `tag`, as in an attribute map. */
  predicate AtMostOnce(attrs: seq<Attr>, tag: Symbol)
  {
    forall i, j :: 0 <= i < j < |attrs| ==> attrs[i].tag != tag || attrs[j].tag != tag
  }

  /**
   When the definition carries `tag` at most once, as an attribute map does,
   the metadata holds under `key` what `getAttribute(tag)` returns.
   */
  lemma MetadataAgreesWithAttribute(winner: RankedMethod, opName: string, key: Symbol, tag: Symbol)
    requires FedBy(key, tag)
    requires AtMostOnce(winner.candidate.definition.attributes, tag)
    ensures key in GenerateCallMetaData(winner, opName) ==>
              GenerateCallMetaData(winner, opName)[key] == GetAttribute(winner.candidate.definition.attributes, tag)
  {
  }

  /** A table with a winner for the call. */
  predicate HasWinner(context: Context, source: Sexp, args: seq<Arg>, rho: Env,
                      group: Option<string>, opName: string)
  {
    var table := TableFor(context, group, opName);
    !table.isEmpty && Selection(table, rho, source, args).Some?
  }

  /**
   A replacement form always goes through the closure dispatcher with
   metadata, whatever the winner's exactness or group status and whether or
   not the receiver extends an S3 class.
   */
  lemma ReplacementAlwaysCarriesMetadata(context: Context, source: Sexp, args: seq<Arg>, rho: Env,
                                         group: Option<string>, opName: string)
    requires HasWinner(context, source, args, rho, group, opName)
    requires Contains(opName, AssignMarker)
    ensures var r := TryS4DispatchFromPrimitive(context, source, args, rho, group, opName);
            var winner := Selection(TableFor(context, group, opName), rho, source, args).value;
            && r.outcome.MetaCall?
            && r.outcome.metadata[DotMethod] == Fn(winner.fn)
            && r.outcome.metadata[DotMethods] == Sym(Symbol(PrimitiveMarker(opName)))
  {
  }

  /** For a non-replacement operator, an exact match of a non-group method is called directly. */
  lemma ExactMatchIsFast(context: Context, source: Sexp, args: seq<Arg>, rho: Env,
                         group: Option<string>, opName: string)
    requires HasWinner(context, source, args, rho, group, opName)
    requires !Contains(opName, AssignMarker)
    requires var w := Selection(TableFor(context, group, opName), rho, source, args).value;
             w.isExact && !w.candidate.isGroupGeneric
    ensures TryS4DispatchFromPrimitive(context, source, args, rho, group, opName).outcome.FastCall?
  {
  }

  /** For a non-replacement operator, a receiver that extends an S3 class gets the direct call. */
  lemma S3ReceiverIsFast(context: Context, source: Sexp, args: seq<Arg>, rho: Env,
                         group: Option<string>, opName: string)
    requires HasWinner(context, source, args, rho, group, opName)
    requires !Contains(opName, AssignMarker)
    requires HasS3Class(source)
    ensures TryS4DispatchFromPrimitive(context, source, args, rho, group, opName).outcome.FastCall?
  {
  }

  /**
   For a non-replacement operator, a group method, or an inexact match, on a
   receiver that does not extend an S3 class needs the metadata.
   */
  lemma InexactOrGroupCarriesMetadata(context: Context, source: Sexp, args: seq<Arg>, rho: Env,
                                      group: Option<string>, opName: string)
    requires HasWinner(context, source, args, rho, group, opName)
    requires !Contains(opName, AssignMarker)
    requires var w := Selection(TableFor(context, group, opName), rho, source, args).value;
             w.candidate.isGroupGeneric || !w.isExact
    requires !HasS3Class(source)
    ensures TryS4DispatchFromPrimitive(context, source, args, rho, group, opName).outcome.MetaCall?
  {
  }
}
