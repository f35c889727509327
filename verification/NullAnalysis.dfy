/**
 * Which required properties of an OpenAPI schema can never be null: a walk through references and
 * alternatives that carries the set of references seen so far, against the rule it computes.
 */
module NullAnalysis {
  import opened Common

  /** What a keyword may hold where a schema is expected: an object, or a JSON value that is none. */
  datatype Node = Object(schema: Schema) | Literal(accepts: bool)

  datatype Nodes = Empty | More(first: Node, rest: Nodes)

  /** The value of `oneOf` or `anyOf`: a list, or anything else. */
  datatype Choice = Absent | Listed(nodes: Nodes)

  /**
   * The keywords the analysis reads. `constant` tells whether the constant is null; `types` is the
   * declared type as a list, absent when none is declared.
   */
  datatype Schema = Schema(ref: Option<string>, oneOf: Choice, anyOf: Choice,
                           constant: Option<bool>, types: Option<seq<string>>)

  type Components = map<string, Node>

  function LastSegment(ref: string): string {
    if ref == "" || ref[|ref| - 1] == '/' then "" else LastSegment(ref[..|ref| - 1]) + [ref[|ref| - 1]]
  }

  /** The segment is the text after the last slash, or all of it when there is none. */
  lemma {:induction false} SegmentIsLast(ref: string)
    ensures var name := LastSegment(ref);
      && '/' !in name && |name| <= |ref| && ref[|ref| - |name|..] == name
      && (|name| < |ref| ==> ref[|ref| - |name| - 1] == '/')
  {
    if ref != "" && ref[|ref| - 1] != '/' {
      SegmentIsLast(ref[..|ref| - 1]);
    }
  }

  predicate Resolves(name: string, components: Components) {
    name in components && components[name].Object?
  }

  /** Without a reference, a constant decides; without a constant, the declared type. */
  predicate PlainAdmits(schema: Schema) {
    if schema.constant.Some? then schema.constant.value
    else schema.types.None? || "null" in schema.types.value
  }

  // ---- the analysis ----

  /**
   * Follows references and looks through alternatives.  The source passes over alternatives that are
   * no objects; with `literals` the walk counts the literal schema `true` among them instead.
   */
  predicate Walk(schema: Schema, components: Components, seen: set<string>, literals: bool)
    decreases components.Keys - seen, schema
  {
    if schema.ref.Some? then
      var name := LastSegment(schema.ref.value);
      if name in seen || !Resolves(name, components) then true
      else Walk(components[name].schema, components, seen + {name}, literals)
    else if schema.oneOf.Listed? then SomeWalk(schema.oneOf.nodes, components, seen, literals)
    else if schema.anyOf.Listed? then SomeWalk(schema.anyOf.nodes, components, seen, literals)
    else PlainAdmits(schema)
  }

  predicate SomeWalk(options: Nodes, components: Components, seen: set<string>, literals: bool)
    decreases components.Keys - seen, options
  {
    options.More? &&
    ((match options.first
      case Object(schema) => Walk(schema, components, seen, literals)
      case Literal(accepts) => literals && accepts) ||
     SomeWalk(options.rest, components, seen, literals))
  }

  /** The source's question. */
  predicate AdmitsNull(schema: Schema, components: Components, seen: set<string>) {
    Walk(schema, components, seen, false)
  }

  // ---- the rule ----

  /** Null is ruled out by an argument that follows at most `depth` references in a row. */
  predicate Excludes(schema: Schema, components: Components, depth: nat, literals: bool)
    decreases depth, schema
  {
    if schema.ref.Some? then
      var name := LastSegment(schema.ref.value);
      depth > 0 && Resolves(name, components) && Excludes(components[name].schema, components, depth - 1, literals)
    else if schema.oneOf.Listed? then AllExclude(schema.oneOf.nodes, components, depth, literals)
    else if schema.anyOf.Listed? then AllExclude(schema.anyOf.nodes, components, depth, literals)
    else !PlainAdmits(schema)
  }

  predicate AllExclude(options: Nodes, components: Components, depth: nat, literals: bool)
    decreases depth, options
  {
    options.More? ==>
    (match options.first
     case Object(schema) => Excludes(schema, components, depth, literals)
     case Literal(accepts) => !(literals && accepts)) &&
    AllExclude(options.rest, components, depth, literals)
  }

  lemma {:induction false} DeeperExcludes(schema: Schema, components: Components, m: nat, n: nat, literals: bool)
    requires m <= n && Excludes(schema, components, m, literals)
    ensures Excludes(schema, components, n, literals)
    decreases m, schema
  {
    if schema.ref.Some? {
      DeeperExcludes(components[LastSegment(schema.ref.value)].schema, components, m - 1, n - 1, literals);
    } else if schema.oneOf.Listed? {
      DeeperAllExclude(schema.oneOf.nodes, components, m, n, literals);
    } else if schema.anyOf.Listed? {
      DeeperAllExclude(schema.anyOf.nodes, components, m, n, literals);
    }
  }

  lemma {:induction false} DeeperAllExclude(options: Nodes, components: Components, m: nat, n: nat, literals: bool)
    requires m <= n && AllExclude(options, components, m, literals)
    ensures AllExclude(options, components, n, literals)
    decreases m, options
  {
    if options.More? {
      DeeperAllExclude(options.rest, components, m, n, literals);
      if options.first.Object? {
        DeeperExcludes(options.first.schema, components, m, n, literals);
      }
    }
  }

  /** When the walk says no, the names it has not seen yet bound the depth of an argument. */
  lemma {:induction false} WalkFindsArgument(schema: Schema, components: Components, seen: set<string>, literals: bool)
    requires !Walk(schema, components, seen, literals)
    ensures Excludes(schema, components, |components.Keys - seen|, literals)
    decreases components.Keys - seen, schema
  {
    if schema.ref.Some? {
      var name := LastSegment(schema.ref.value);
      WalkFindsArgument(components[name].schema, components, seen + {name}, literals);
      assert (components.Keys - seen) - {name} == components.Keys - (seen + {name});
    } else if schema.oneOf.Listed? {
      WalkFindsArguments(schema.oneOf.nodes, components, seen, literals);
    } else if schema.anyOf.Listed? {
      WalkFindsArguments(schema.anyOf.nodes, components, seen, literals);
    }
  }

  lemma {:induction false} WalkFindsArguments(options: Nodes, components: Components, seen: set<string>, literals: bool)
    requires !SomeWalk(options, components, seen, literals)
    ensures AllExclude(options, components, |components.Keys - seen|, literals)
    decreases components.Keys - seen, options
  {
    if options.More? {
      WalkFindsArguments(options.rest, components, seen, literals);
      if options.first.Object? {
        WalkFindsArgument(options.first.schema, components, seen, literals);
      }
    }
  }

  /** No name seen so far has an argument that could be used at a depth below `depth`. */
  predicate Blocked(seen: set<string>, components: Components, depth: nat, literals: bool) {
    forall name :: name in seen && Resolves(name, components) && depth > 0 ==>
      !Excludes(components[name].schema, components, depth - 1, literals)
  }

  /** The shallowest depth at which an argument exists. */
  function Shallowest(schema: Schema, components: Components, depth: nat, literals: bool): (least: nat)
    requires Excludes(schema, components, depth, literals)
    ensures least <= depth && Excludes(schema, components, least, literals)
    ensures least > 0 ==> !Excludes(schema, components, least - 1, literals)
    decreases depth
  {
    if depth > 0 && Excludes(schema, components, depth - 1, literals)
    then Shallowest(schema, components, depth - 1, literals) else depth
  }

  lemma BlockedInside(
    seen: set<string>, components: Components, depth: nat, name: string, least: nat, literals: bool)
    requires least < depth && Resolves(name, components) && Blocked(seen, components, depth, literals)
    requires least > 0 ==> !Excludes(components[name].schema, components, least - 1, literals)
    ensures Blocked(seen + {name}, components, least, literals)
  {
    forall other | other in seen && Resolves(other, components) && least > 0
      ensures !Excludes(components[other].schema, components, least - 1, literals)
    {
      if Excludes(components[other].schema, components, least - 1, literals) {
        DeeperExcludes(components[other].schema, components, least - 1, depth - 1, literals);
      }
    }
  }

  /** A shortest argument never returns to a name it is in the middle of, so the walk finds it. */
  lemma {:induction false} ArgumentStopsWalk(
    schema: Schema, components: Components, depth: nat, seen: set<string>, literals: bool)
    requires Excludes(schema, components, depth, literals) && Blocked(seen, components, depth, literals)
    ensures !Walk(schema, components, seen, literals)
    decreases depth, schema
  {
    if schema.ref.Some? {
      var name := LastSegment(schema.ref.value);
      var least := Shallowest(components[name].schema, components, depth - 1, literals);
      BlockedInside(seen, components, depth, name, least, literals);
      ArgumentStopsWalk(components[name].schema, components, least, seen + {name}, literals);
    } else if schema.oneOf.Listed? {
      ArgumentsStopWalk(schema.oneOf.nodes, components, depth, seen, literals);
    } else if schema.anyOf.Listed? {
      ArgumentsStopWalk(schema.anyOf.nodes, components, depth, seen, literals);
    }
  }

  lemma {:induction false} ArgumentsStopWalk(
    options: Nodes, components: Components, depth: nat, seen: set<string>, literals: bool)
    requires AllExclude(options, components, depth, literals) && Blocked(seen, components, depth, literals)
    ensures !SomeWalk(options, components, seen, literals)
    decreases depth, options
  {
    if options.More? {
      ArgumentsStopWalk(options.rest, components, depth, seen, literals);
      if options.first.Object? {
        ArgumentStopsWalk(options.first.schema, components, depth, seen, literals);
      }
    }
  }

  /** Some finite argument rules null out. */
  ghost predicate RuledOut(schema: Schema, components: Components, literals: bool) {
    exists depth: nat :: Excludes(schema, components, depth, literals)
  }

  lemma Rules(schema: Schema, components: Components, depth: nat, literals: bool)
    requires Excludes(schema, components, depth, literals)
    ensures RuledOut(schema, components, literals)
  {
  }

  /** The walk answers no exactly when a finite argument rules null out, whatever the references do. */
  lemma WalkIsExact(schema: Schema, components: Components, literals: bool)
    ensures !Walk(schema, components, {}, literals) <==> RuledOut(schema, components, literals)
  {
    if !Walk(schema, components, {}, literals) {
      WalkFindsArgument(schema, components, {}, literals);
      Rules(schema, components, |components.Keys - {}|, literals);
    }
    if RuledOut(schema, components, literals) {
      var depth: nat :| Excludes(schema, components, depth, literals);
      ArgumentStopsWalk(schema, components, depth, {}, literals);
    }
  }

  /** An argument never needs more references in a row than there are components. */
  lemma EnoughDepth(schema: Schema, components: Components, literals: bool)
    requires !Walk(schema, components, {}, literals)
    ensures Excludes(schema, components, |components.Keys|, literals)
  {
    WalkFindsArgument(schema, components, {}, literals);
    assert components.Keys - {} == components.Keys;
  }

  // ---- what the answer means for null ----

  predicate Accepted(node: Node, accepted: iset<Schema>) {
    match node
    case Object(schema) => schema in accepted
    case Literal(accepts) => accepts
  }

  ghost function CountAccepted(options: Nodes, accepted: iset<Schema>): nat {
    if options.Empty? then 0 else
      CountAccepted(options.rest, accepted) + if Accepted(options.first, accepted) then 1 else 0
  }

  /** Every keyword of the schema, taken together, lets null through. */
  ghost predicate Satisfied(schema: Schema, components: Components, accepted: iset<Schema>) {
    && (schema.ref.Some? && LastSegment(schema.ref.value) in components ==>
          Accepted(components[LastSegment(schema.ref.value)], accepted))
    && (schema.oneOf.Listed? ==> CountAccepted(schema.oneOf.nodes, accepted) == 1)
    && (schema.anyOf.Listed? ==> CountAccepted(schema.anyOf.nodes, accepted) >= 1)
    && (schema.constant.Some? ==> schema.constant.value)
    && (schema.types.Some? ==> "null" in schema.types.value)
  }

  ghost predicate NodesIn(options: Nodes, domain: iset<Schema>) {
    options.More? ==> (options.first.Object? ==> options.first.schema in domain) && NodesIn(options.rest, domain)
  }

  /** Everything the schema refers to or lists is in the domain. */
  ghost predicate Supported(schema: Schema, components: Components, domain: iset<Schema>) {
    && (schema.ref.Some? && Resolves(LastSegment(schema.ref.value), components) ==>
          components[LastSegment(schema.ref.value)].schema in domain)
    && (schema.oneOf.Listed? ==> NodesIn(schema.oneOf.nodes, domain))
    && (schema.anyOf.Listed? ==> NodesIn(schema.anyOf.nodes, domain))
  }

  /** `accepted` is a consistent verdict on which schemas of the domain null is valid against. */
  ghost predicate Consistent(domain: iset<Schema>, accepted: iset<Schema>, components: Components) {
    && accepted <= domain
    && (forall schema :: schema in domain ==>
          Supported(schema, components, domain) && (schema in accepted <==> Satisfied(schema, components, accepted)))
  }

  ghost predicate NullIsPossible(schema: Schema, components: Components) {
    exists domain: iset<Schema>, accepted: iset<Schema> ::
      schema in accepted && Consistent(domain, accepted, components)
  }

  lemma {:induction false} ExcludedIsRejected(
    schema: Schema, components: Components, depth: nat, domain: iset<Schema>, accepted: iset<Schema>)
    requires Excludes(schema, components, depth, true) && Consistent(domain, accepted, components)
    ensures schema !in accepted
    decreases depth, schema
  {
    if schema in accepted {
      assert Satisfied(schema, components, accepted);
      if schema.ref.Some? {
        ExcludedIsRejected(components[LastSegment(schema.ref.value)].schema, components, depth - 1, domain, accepted);
      } else if schema.oneOf.Listed? {
        ExcludedAreRejected(schema.oneOf.nodes, components, depth, domain, accepted);
      } else if schema.anyOf.Listed? {
        ExcludedAreRejected(schema.anyOf.nodes, components, depth, domain, accepted);
      }
    }
  }

  lemma {:induction false} ExcludedAreRejected(
    options: Nodes, components: Components, depth: nat, domain: iset<Schema>, accepted: iset<Schema>)
    requires AllExclude(options, components, depth, true) && Consistent(domain, accepted, components)
    ensures CountAccepted(options, accepted) == 0
    decreases depth, options
  {
    if options.More? {
      ExcludedAreRejected(options.rest, components, depth, domain, accepted);
      if options.first.Object? {
        ExcludedIsRejected(options.first.schema, components, depth, domain, accepted);
      }
    }
  }

  /** A schema that the walk counting literals calls non-null cannot be null, whatever it looks like. */
  lemma LiteralWalkIsSound(schema: Schema, components: Components)
    requires !Walk(schema, components, {}, true)
    ensures !NullIsPossible(schema, components)
  {
    EnoughDepth(schema, components, true);
    forall domain: iset<Schema>, accepted: iset<Schema> | Consistent(domain, accepted, components)
      ensures schema !in accepted
    {
      ExcludedIsRejected(schema, components, |components.Keys|, domain, accepted);
    }
  }

  // ---- the source's walk, where no alternative is the literal `true` ----

  /** No alternative anywhere below is the literal schema `true`. */
  predicate Clean(schema: Schema) {
    (schema.oneOf.Listed? ==> CleanNodes(schema.oneOf.nodes)) && (schema.anyOf.Listed? ==> CleanNodes(schema.anyOf.nodes))
  }

  predicate CleanNodes(options: Nodes) {
    options.More? ==>
    options.first != Literal(true) &&
    (options.first.Object? ==> Clean(options.first.schema)) &&
    CleanNodes(options.rest)
  }

  ghost predicate AllClean(components: Components) {
    forall name :: Resolves(name, components) ==> Clean(components[name].schema)
  }

  lemma {:induction false} CleanExcludes(schema: Schema, components: Components, depth: nat)
    requires Excludes(schema, components, depth, false) && Clean(schema) && AllClean(components)
    ensures Excludes(schema, components, depth, true)
    decreases depth, schema
  {
    if schema.ref.Some? {
      CleanExcludes(components[LastSegment(schema.ref.value)].schema, components, depth - 1);
    } else if schema.oneOf.Listed? {
      CleanAllExclude(schema.oneOf.nodes, components, depth);
    } else if schema.anyOf.Listed? {
      CleanAllExclude(schema.anyOf.nodes, components, depth);
    }
  }

  lemma {:induction false} CleanAllExclude(options: Nodes, components: Components, depth: nat)
    requires AllExclude(options, components, depth, false) && CleanNodes(options) && AllClean(components)
    ensures AllExclude(options, components, depth, true)
    decreases depth, options
  {
    if options.More? {
      CleanAllExclude(options.rest, components, depth);
      if options.first.Object? {
        CleanExcludes(options.first.schema, components, depth);
      }
    }
  }

  /** A property the walk calls non-null cannot be null, when no alternative is the literal `true`. */
  lemma NonNullIsSound(schema: Schema, components: Components)
    requires !AdmitsNull(schema, components, {}) && Clean(schema) && AllClean(components)
    ensures !NullIsPossible(schema, components)
  {
    EnoughDepth(schema, components, false);
    CleanExcludes(schema, components, |components.Keys|);
    Rules(schema, components, |components.Keys|, true);
    WalkIsExact(schema, components, true);
    LiteralWalkIsSound(schema, components);
  }

  // ---- with literals: exactly when the source's "no" is right ----

  /**
   * Reads a schema as it is meant: all keywords together, literals counted, exactly one alternative
   * of `oneOf`, following at most `depth` references in a row.
   */
  predicate Reads(schema: Schema, components: Components, depth: nat)
    decreases depth, schema
  {
    && (schema.ref.Some? ==>
          var name := LastSegment(schema.ref.value);
          depth > 0 && Resolves(name, components) && Reads(components[name].schema, components, depth - 1))
    && (schema.oneOf.Listed? ==> CountReads(schema.oneOf.nodes, components, depth) == 1)
    && (schema.anyOf.Listed? ==> CountReads(schema.anyOf.nodes, components, depth) >= 1)
    && (schema.constant.Some? ==> schema.constant.value)
    && (schema.types.Some? ==> "null" in schema.types.value)
  }

  function CountReads(options: Nodes, components: Components, depth: nat): nat
    decreases depth, options
  {
    match options
    case Empty => 0
    case More(first, rest) =>
      var fits := match first
        case Object(schema) => Reads(schema, components, depth)
        case Literal(accepts) => accepts;
      CountReads(rest, components, depth) + if fits then 1 else 0
  }

  /** No schema has two of `$ref`, `oneOf` and `anyOf`, so that the walk looks at all it has. */
  predicate Narrow(schema: Schema) {
    && (schema.ref.Some? ==> schema.oneOf.Absent? && schema.anyOf.Absent?)
    && (schema.oneOf.Listed? ==> schema.anyOf.Absent? && NarrowNodes(schema.oneOf.nodes))
    && (schema.anyOf.Listed? ==> NarrowNodes(schema.anyOf.nodes))
  }

  predicate NarrowNodes(options: Nodes) {
    options.More? ==> (options.first.Object? ==> Narrow(options.first.schema)) && NarrowNodes(options.rest)
  }

  ghost predicate AllNarrow(components: Components) {
    forall name :: Resolves(name, components) ==> Narrow(components[name].schema)
  }

  /** Where the walk's argument reaches, the reading no longer depends on the depth. */
  lemma {:induction false} ReadsStable(schema: Schema, components: Components, m: nat, n: nat)
    requires m <= n && Excludes(schema, components, m, false) && Narrow(schema) && AllNarrow(components)
    ensures Reads(schema, components, m) <==> Reads(schema, components, n)
    decreases m, schema
  {
    if schema.ref.Some? {
      ReadsStable(components[LastSegment(schema.ref.value)].schema, components, m - 1, n - 1);
    } else if schema.oneOf.Listed? {
      CountStable(schema.oneOf.nodes, components, m, n);
    } else if schema.anyOf.Listed? {
      CountStable(schema.anyOf.nodes, components, m, n);
    }
  }

  lemma {:induction false} CountStable(options: Nodes, components: Components, m: nat, n: nat)
    requires m <= n && AllExclude(options, components, m, false) && NarrowNodes(options) && AllNarrow(components)
    ensures CountReads(options, components, m) == CountReads(options, components, n)
    decreases m, options
  {
    if options.More? {
      CountStable(options.rest, components, m, n);
      if options.first.Object? {
        ReadsStable(options.first.schema, components, m, n);
      }
    }
  }

  /** Every consistent verdict on such a schema is its reading. */
  lemma {:induction false} VerdictIsReading(
    schema: Schema, components: Components, depth: nat, domain: iset<Schema>, accepted: iset<Schema>)
    requires Consistent(domain, accepted, components) && schema in domain
    requires Excludes(schema, components, depth, false) && Narrow(schema) && AllNarrow(components)
    ensures schema in accepted <==> Reads(schema, components, depth)
    decreases depth, schema
  {
    assert Supported(schema, components, domain) && (schema in accepted <==> Satisfied(schema, components, accepted));
    if schema.ref.Some? {
      VerdictIsReading(components[LastSegment(schema.ref.value)].schema, components, depth - 1, domain, accepted);
    } else if schema.oneOf.Listed? {
      VerdictsAreReadings(schema.oneOf.nodes, components, depth, domain, accepted);
    } else if schema.anyOf.Listed? {
      VerdictsAreReadings(schema.anyOf.nodes, components, depth, domain, accepted);
    }
  }

  lemma {:induction false} VerdictsAreReadings(
    options: Nodes, components: Components, depth: nat, domain: iset<Schema>, accepted: iset<Schema>)
    requires Consistent(domain, accepted, components) && NodesIn(options, domain)
    requires AllExclude(options, components, depth, false) && NarrowNodes(options) && AllNarrow(components)
    ensures CountAccepted(options, accepted) == CountReads(options, components, depth)
    decreases depth, options
  {
    if options.More? {
      VerdictsAreReadings(options.rest, components, depth, domain, accepted);
      if options.first.Object? {
        VerdictIsReading(options.first.schema, components, depth, domain, accepted);
      }
    }
  }

  /** The schemas an argument of this depth covers. */
  ghost function Covered(components: Components, depth: nat): iset<Schema> {
    iset schema: Schema | Excludes(schema, components, depth, false) && Narrow(schema)
  }

  ghost function Readable(components: Components, depth: nat): iset<Schema> {
    iset schema: Schema | Excludes(schema, components, depth, false) && Narrow(schema) && Reads(schema, components, depth)
  }

  lemma {:induction false} NodesCovered(options: Nodes, components: Components, depth: nat)
    requires AllExclude(options, components, depth, false) && NarrowNodes(options)
    ensures NodesIn(options, Covered(components, depth))
    ensures CountAccepted(options, Readable(components, depth)) == CountReads(options, components, depth)
  {
    if options.More? {
      NodesCovered(options.rest, components, depth);
    }
  }

  /** The reading itself is a consistent verdict. */
  lemma ReadingIsConsistent(components: Components, depth: nat)
    requires AllNarrow(components)
    ensures Consistent(Covered(components, depth), Readable(components, depth), components)
  {
    var domain, accepted := Covered(components, depth), Readable(components, depth);
    forall schema | schema in domain
      ensures Supported(schema, components, domain) && (schema in accepted <==> Satisfied(schema, components, accepted))
    {
      if schema.ref.Some? {
        var target := components[LastSegment(schema.ref.value)].schema;
        ReadsStable(target, components, depth - 1, depth);
        DeeperExcludes(target, components, depth - 1, depth, false);
      } else if schema.oneOf.Listed? {
        NodesCovered(schema.oneOf.nodes, components, depth);
      } else if schema.anyOf.Listed? {
        NodesCovered(schema.anyOf.nodes, components, depth);
      }
    }
  }

  /** Where the source says no, null is possible exactly when the schema reads so. */
  lemma ReadingDecides(schema: Schema, components: Components)
    requires !AdmitsNull(schema, components, {}) && Narrow(schema) && AllNarrow(components)
    ensures NullIsPossible(schema, components) <==> Reads(schema, components, |components.Keys|)
  {
    var depth := |components.Keys|;
    EnoughDepth(schema, components, false);
    if Reads(schema, components, depth) {
      ReadingIsConsistent(components, depth);
      assert schema in Readable(components, depth);
    }
    forall domain: iset<Schema>, accepted: iset<Schema> |
      schema in accepted && Consistent(domain, accepted, components)
      ensures Reads(schema, components, depth)
    {
      VerdictIsReading(schema, components, depth, domain, accepted);
    }
  }

  /** The source's answer is right exactly when it is yes, or the schema does not read as letting null through. */
  lemma SoundExactlyWhen(schema: Schema, components: Components)
    requires Narrow(schema) && AllNarrow(components)
    ensures (!AdmitsNull(schema, components, {}) ==> !NullIsPossible(schema, components)) <==>
      (AdmitsNull(schema, components, {}) || !Reads(schema, components, |components.Keys|))
  {
    if !AdmitsNull(schema, components, {}) {
      ReadingDecides(schema, components);
    }
  }

  /** At most one keyword in every schema, and no `oneOf`. */
  predicate Single(schema: Schema) {
    && schema.oneOf.Absent?
    && (schema.ref.Some? ==> schema.anyOf.Absent? && schema.constant.None? && schema.types.None?)
    && (schema.anyOf.Listed? ==> SingleNodes(schema.anyOf.nodes) && schema.constant.None? && schema.types.None?)
    && (schema.constant.Some? ==> schema.types.None?)
  }

  predicate SingleNodes(options: Nodes) {
    options.More? ==> (options.first.Object? ==> Single(options.first.schema)) && SingleNodes(options.rest)
  }

  ghost predicate AllSingle(components: Components) {
    forall name :: Resolves(name, components) ==> Single(components[name].schema)
  }

  lemma {:induction false} SingleIsNarrow(schema: Schema)
    requires Single(schema)
    ensures Narrow(schema)
  {
    if schema.anyOf.Listed? {
      SingleNodesAreNarrow(schema.anyOf.nodes);
    }
  }

  lemma {:induction false} SingleNodesAreNarrow(options: Nodes)
    requires SingleNodes(options)
    ensures NarrowNodes(options)
  {
    if options.More? {
      SingleNodesAreNarrow(options.rest);
      if options.first.Object? {
        SingleIsNarrow(options.first.schema);
      }
    }
  }

  lemma {:induction false} SingleReads(schema: Schema, components: Components, depth: nat)
    requires Excludes(schema, components, depth, false) && Single(schema) && AllSingle(components)
    ensures Reads(schema, components, depth) <==> !Excludes(schema, components, depth, true)
    decreases depth, schema
  {
    if schema.ref.Some? {
      SingleReads(components[LastSegment(schema.ref.value)].schema, components, depth - 1);
    } else if schema.anyOf.Listed? {
      SingleNodesRead(schema.anyOf.nodes, components, depth);
    }
  }

  lemma {:induction false} SingleNodesRead(options: Nodes, components: Components, depth: nat)
    requires AllExclude(options, components, depth, false) && SingleNodes(options) && AllSingle(components)
    ensures CountReads(options, components, depth) >= 1 <==> !AllExclude(options, components, depth, true)
    decreases depth, options
  {
    if options.More? {
      SingleNodesRead(options.rest, components, depth);
      if options.first.Object? {
        SingleReads(options.first.schema, components, depth);
      }
    }
  }

  /**
   * With one keyword to a schema and no `oneOf`, at any nesting and through any references, the
   * source's answer is right exactly when the walk that counts literals gives the same one.
   */
  lemma SoundExactlyWhenWalksAgree(schema: Schema, components: Components)
    requires Single(schema) && AllSingle(components)
    ensures (!AdmitsNull(schema, components, {}) ==> !NullIsPossible(schema, components)) <==>
      AdmitsNull(schema, components, {}) == Walk(schema, components, {}, true)
  {
    SingleIsNarrow(schema);
    forall name | Resolves(name, components) ensures Narrow(components[name].schema) {
      SingleIsNarrow(components[name].schema);
    }
    SoundExactlyWhen(schema, components);
    if !AdmitsNull(schema, components, {}) {
      EnoughDepth(schema, components, false);
      SingleReads(schema, components, |components.Keys|);
      if !Walk(schema, components, {}, true) {
        EnoughDepth(schema, components, true);
      } else if Excludes(schema, components, |components.Keys|, true) {
        ArgumentStopsWalk(schema, components, |components.Keys|, {}, true);
      }
    } else {
      CountingAdmitsMore(schema, components, {});
    }
  }

  lemma {:induction false} CountingAdmitsMore(schema: Schema, components: Components, seen: set<string>)
    requires Walk(schema, components, seen, false)
    ensures Walk(schema, components, seen, true)
    decreases components.Keys - seen, schema
  {
    if schema.ref.Some? {
      var name := LastSegment(schema.ref.value);
      if name !in seen && Resolves(name, components) {
        CountingAdmitsMore(components[name].schema, components, seen + {name});
      }
    } else if schema.oneOf.Listed? {
      CountingSomeAdmit(schema.oneOf.nodes, components, seen);
    } else if schema.anyOf.Listed? {
      CountingSomeAdmit(schema.anyOf.nodes, components, seen);
    }
  }

  lemma {:induction false} CountingSomeAdmit(options: Nodes, components: Components, seen: set<string>)
    requires SomeWalk(options, components, seen, false)
    ensures SomeWalk(options, components, seen, true)
    decreases components.Keys - seen, options
  {
    if options.first.Object? && Walk(options.first.schema, components, seen, false) {
      CountingAdmitsMore(options.first.schema, components, seen);
    } else {
      CountingSomeAdmit(options.rest, components, seen);
    }
  }

  // ---- when "yes" is right ----

  /** No component is the literal schema `false`, which the walk would take for one that lets null through. */
  predicate NoneIsFalse(components: Components) {
    forall name :: name in components ==> components[name] != Literal(false)
  }

  /** The schemas of one keyword that no argument rules out. */
  ghost function Open(components: Components): iset<Schema> {
    iset schema: Schema | Single(schema) && !RuledOut(schema, components, true)
  }

  ghost function Singles(): iset<Schema> {
    iset schema: Schema | Single(schema)
  }

  ghost predicate AllRuledOut(options: Nodes, components: Components) {
    exists depth: nat :: AllExclude(options, components, depth, true)
  }

  lemma OptionRuledOut(first: Node, rest: Nodes, components: Components)
    requires AllRuledOut(rest, components)
    requires match first case Object(schema) => RuledOut(schema, components, true) case Literal(accepts) => !accepts
    ensures AllRuledOut(More(first, rest), components)
  {
    var n: nat :| AllExclude(rest, components, n, true);
    if first.Object? {
      var m: nat :| Excludes(first.schema, components, m, true);
      var depth := m + n;
      DeeperExcludes(first.schema, components, m, depth, true);
      DeeperAllExclude(rest, components, n, depth, true);
      assert AllExclude(More(first, rest), components, depth, true);
    } else {
      assert AllExclude(More(first, rest), components, n, true);
    }
  }

  /** A list of alternatives is ruled out exactly when none of them is open. */
  lemma {:induction false} NoneOpenExactlyWhen(options: Nodes, components: Components)
    requires SingleNodes(options)
    ensures NodesIn(options, Singles())
    ensures CountAccepted(options, Open(components)) == 0 <==> AllRuledOut(options, components)
  {
    match options
    case Empty =>
      assert AllExclude(Empty, components, 0, true);
    case More(first, rest) =>
      NoneOpenExactlyWhen(rest, components);
      if CountAccepted(options, Open(components)) == 0 {
        OptionRuledOut(first, rest, components);
      }
      if AllRuledOut(options, components) {
        var depth: nat :| AllExclude(options, components, depth, true);
        assert AllExclude(rest, components, depth, true);
        if first.Object? {
          Rules(first.schema, components, depth, true);
        }
      }
  }

  lemma ReferenceRuledOut(schema: Schema, components: Components)
    requires schema.ref.Some?
    ensures var name := LastSegment(schema.ref.value);
      RuledOut(schema, components, true) <==> Resolves(name, components) && RuledOut(components[name].schema, components, true)
  {
    var name := LastSegment(schema.ref.value);
    if RuledOut(schema, components, true) {
      var depth: nat :| Excludes(schema, components, depth, true);
      Rules(components[name].schema, components, depth - 1, true);
    }
    if Resolves(name, components) && RuledOut(components[name].schema, components, true) {
      var depth: nat :| Excludes(components[name].schema, components, depth, true);
      Rules(schema, components, depth + 1, true);
    }
  }

  lemma ListRuledOut(schema: Schema, components: Components)
    requires schema.ref.None? && schema.oneOf.Absent? && schema.anyOf.Listed?
    ensures RuledOut(schema, components, true) <==> AllRuledOut(schema.anyOf.nodes, components)
  {
    if RuledOut(schema, components, true) {
      var depth: nat :| Excludes(schema, components, depth, true);
      assert AllExclude(schema.anyOf.nodes, components, depth, true);
    }
    if AllRuledOut(schema.anyOf.nodes, components) {
      var depth: nat :| AllExclude(schema.anyOf.nodes, components, depth, true);
      Rules(schema, components, depth, true);
    }
  }

  lemma PlainRuledOut(schema: Schema, components: Components)
    requires schema.ref.None? && schema.oneOf.Absent? && schema.anyOf.Absent?
    ensures RuledOut(schema, components, true) <==> !PlainAdmits(schema)
  {
    if !PlainAdmits(schema) {
      Rules(schema, components, 0, true);
    }
  }

  /** Taking every open schema as satisfied by null is consistent. */
  lemma OpenIsConsistent(components: Components)
    requires AllSingle(components) && NoneIsFalse(components)
    ensures Consistent(Singles(), Open(components), components)
  {
    var domain, accepted := Singles(), Open(components);
    forall schema | schema in domain
      ensures Supported(schema, components, domain) && (schema in accepted <==> Satisfied(schema, components, accepted))
    {
      if schema.ref.Some? {
        ReferenceRuledOut(schema, components);
      } else if schema.anyOf.Listed? {
        NoneOpenExactlyWhen(schema.anyOf.nodes, components);
        ListRuledOut(schema, components);
      } else {
        PlainRuledOut(schema, components);
      }
    }
  }

  /**
   * With one keyword to a schema, no `oneOf`, and no component that is `false`, the walk that counts
   * literals answers yes exactly when null is possible, at any nesting and through any references.
   */
  lemma LiteralWalkIsExact(schema: Schema, components: Components)
    requires Single(schema) && AllSingle(components) && NoneIsFalse(components)
    ensures Walk(schema, components, {}, true) <==> NullIsPossible(schema, components)
  {
    if Walk(schema, components, {}, true) {
      WalkIsExact(schema, components, true);
      OpenIsConsistent(components);
      assert schema in Open(components);
    } else {
      LiteralWalkIsSound(schema, components);
    }
  }

  /** So does the source's walk, where no alternative is the literal `true`: then both its answers are right. */
  lemma AnswerIsExact(schema: Schema, components: Components)
    requires Single(schema) && AllSingle(components) && NoneIsFalse(components)
    requires Clean(schema) && AllClean(components)
    ensures AdmitsNull(schema, components, {}) <==> NullIsPossible(schema, components)
  {
    LiteralWalkIsExact(schema, components);
    if AdmitsNull(schema, components, {}) {
      CountingAdmitsMore(schema, components, {});
    } else {
      NonNullIsSound(schema, components);
    }
  }

  /** A reference to a component that is `false` is taken for one that lets null through, and it does not. */
  lemma FalseComponentIsMisread(schema: Schema, name: string)
    requires schema == Schema(Some(name), Absent, Absent, None, None) && LastSegment(name) == name
    ensures var components: Components := map[name := Literal(false)];
      AdmitsNull(schema, components, {}) && !NullIsPossible(schema, components)
  {
    var components: Components := map[name := Literal(false)];
    forall domain: iset<Schema>, accepted: iset<Schema> | Consistent(domain, accepted, components) ensures schema !in accepted {
      assert !Satisfied(schema, components, accepted);
    }
  }

  /** `oneOf` is read as `anyOf`: one alternative that lets null through is enough. */
  lemma OneOfIsReadAsAnyOf(schema: Schema, components: Components)
    requires schema.ref.None? && schema.oneOf.Listed?
    ensures AdmitsNull(schema, components, {}) == AdmitsNull(schema.(oneOf := Absent, anyOf := schema.oneOf), components, {})
  {
  }

  /** A keyword decides alone: what stands after it in the order `$ref`, `oneOf`, `anyOf`, `const`, `type` is not read. */
  lemma LaterKeywordsAreIgnored(a: Schema, b: Schema, components: Components)
    requires a.ref == b.ref
    requires a.ref.Some? || (a.oneOf == b.oneOf && (a.oneOf.Listed? || (a.anyOf == b.anyOf &&
      (a.anyOf.Listed? || (a.constant == b.constant && (a.constant.Some? || a.types == b.types))))))
    ensures AdmitsNull(a, components, {}) == AdmitsNull(b, components, {})
  {
  }

  // ---- inputs ----

  function AnyOf(options: Nodes): Schema {
    Schema(None, Absent, Listed(options), None, None)
  }

  function OneOf(options: Nodes): Schema {
    Schema(None, Listed(options), Absent, None, None)
  }

  function Typed(name: string): Schema {
    Schema(None, Absent, Absent, None, Some([name]))
  }

  const TRUE := Literal(true)

  /** The source answers no, and null is valid: the literal after an object, inside another, under `oneOf`. */
  lemma LiteralTrueIsMissed(schema: Schema)
    requires schema in {
      AnyOf(More(Object(Typed("string")), More(TRUE, Empty))),
      AnyOf(More(Object(AnyOf(More(TRUE, Empty))), Empty)),
      OneOf(More(TRUE, Empty))}
    ensures !AdmitsNull(schema, map[], {}) && NullIsPossible(schema, map[])
  {
    assert "string"[0] != "null"[0];
    assert AllNarrow(map[]);
    if schema == OneOf(More(TRUE, Empty)) {
      assert CountReads(More(TRUE, Empty), map[], 0) == 1;
    } else if schema == AnyOf(More(Object(AnyOf(More(TRUE, Empty))), Empty)) {
      assert CountReads(More(TRUE, Empty), map[], 0) == 1;
      assert Reads(AnyOf(More(TRUE, Empty)), map[], 0);
    } else {
      assert CountReads(More(TRUE, Empty), map[], 0) == 1;
    }
    var keys: Components := map[];
    assert |keys.Keys| == 0;
    assert Reads(schema, map[], 0);
    ReadingDecides(schema, map[]);
  }

  /** The answer can be right although a literal is listed: two of them under `oneOf`, or a type beside it. */
  lemma LiteralTrueCanBeHarmless(schema: Schema)
    requires schema in {
      OneOf(More(TRUE, More(TRUE, Empty))),
      AnyOf(More(TRUE, Empty)).(types := Some(["string"]))}
    ensures !AdmitsNull(schema, map[], {}) && Walk(schema, map[], {}, true) && !NullIsPossible(schema, map[])
  {
    assert "string"[0] != "null"[0];
    assert AllNarrow(map[]);
    assert CountReads(More(TRUE, Empty), map[], 0) == 1;
    var keys: Components := map[];
    assert |keys.Keys| == 0;
    assert !Reads(schema, map[], 0);
    ReadingDecides(schema, map[]);
  }

  // ---- the list of names ----

  /** A property that is not declared has the empty schema, which admits anything. */
  function PropertySchema(properties: map<string, Schema>, name: string): Schema {
    if name in properties then properties[name] else Schema(None, Absent, Absent, None, None)
  }

  predicate NeverNull(properties: map<string, Schema>, components: Components, name: string) {
    !AdmitsNull(PropertySchema(properties, name), components, {})
  }

  function RequiredNonNull(properties: map<string, Schema>, required: seq<string>, components: Components): seq<string> {
    if required == [] then [] else
      var name := required[|required| - 1];
      var before := RequiredNonNull(properties, required[..|required| - 1], components);
      if NeverNull(properties, components, name) then before + [name] else before
  }

  /** The names keep their order: the list of two lists is the two lists of names. */
  lemma {:induction false} NamesKeepOrder(properties: map<string, Schema>, a: seq<string>, b: seq<string>, components: Components)
    ensures RequiredNonNull(properties, a + b, components) ==
      RequiredNonNull(properties, a, components) + RequiredNonNull(properties, b, components)
  {
    if b == [] {
      assert a + b == a;
    } else {
      NamesKeepOrder(properties, a, b[..|b| - 1], components);
      assert (a + b)[..|a + b| - 1] == a + b[..|b| - 1];
    }
  }

  lemma {:induction false} NamesAre(properties: map<string, Schema>, required: seq<string>, components: Components, name: string)
    ensures name in RequiredNonNull(properties, required, components) <==>
      name in required && NeverNull(properties, components, name)
  {
    if required != [] {
      NamesAre(properties, required[..|required| - 1], components, name);
    }
  }

  /** A required name is listed exactly when it is declared and an argument rules null out. */
  lemma ListedExactlyWhen(properties: map<string, Schema>, required: seq<string>, components: Components, name: string)
    ensures name in RequiredNonNull(properties, required, components) <==>
      name in required && name in properties && RuledOut(properties[name], components, false)
  {
    NamesAre(properties, required, components, name);
    WalkIsExact(PropertySchema(properties, name), components, false);
    assert name !in properties ==> !NeverNull(properties, components, name);
  }
}
