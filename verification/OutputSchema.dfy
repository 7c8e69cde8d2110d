/** The public view of a native output schema: a finite reference graph that redacted values satisfy. */
module OutputSchema {
  import opened Prelude
  import opened JsonValue

  // ----- Native schemas ---------------------------------------------------------------------

  datatype JsonType = TNull | TBoolean | TNumber | TInteger | TString | TArray | TObject

  /** The keywords the projection copies: types, required keys, sizes and numeric bounds. */
  datatype Assertions = Assertions(
    types: Option<set<JsonType>>,
    required: set<string>,
    minProperties: Option<nat>, maxProperties: Option<nat>,
    minItems: Option<nat>, maxItems: Option<nat>,
    minimum: Option<real>, maximum: Option<real>,
    exclusiveMinimum: Option<real>, exclusiveMaximum: Option<real>,
    multipleOf: Option<real>)

  /** A subschema is a boolean or an object, known by its identity in the document. */
  datatype Child = Always(accepts: bool) | At(id: nat)

  datatype Reference = Unresolved | Resolved(target: Child)

  datatype Member = Member(key: string, child: Child)

  datatype Items = Each(child: Child) | Tuple(children: seq<Child>)

  /**
   * A schema object. The residue stands for every keyword the projection drops: enumerations, patterns,
   * lengths, conditionals, negation, uniqueness and the rest.
   */
  datatype Node = Node(
    ref: Option<Reference>,
    assertions: Assertions,
    properties: seq<Member>,
    patternProperties: seq<Member>,
    items: Option<Items>,
    prefixItems: Option<seq<Child>>,
    additionalItems: Option<Child>,
    additionalProperties: Option<Child>,
    allOf: Option<seq<Child>>,
    anyOf: Option<seq<Child>>,
    oneOf: Option<seq<Child>>,
    residue: Json -> bool)

  datatype Dialect = Draft202012 | Draft201909 | Draft07 | Draft06

  /** matches is the regular-expression engine. */
  datatype Document = Document(nodes: map<nat, Node>, root: nat, dialect: Dialect, matches: (string, string) -> bool) {
    /** In draft-07 and before, a validator ignores the siblings of a reference, ... */
    predicate Ignores(node: Node) {
      (dialect == Draft07 || dialect == Draft06) && node.ref.Some?
    }

    /** ... but the projection drops them for draft-07 only. */
    predicate Hides(node: Node) {
      dialect == Draft07 && node.ref.Some?
    }

    /** prefixItems is a keyword of 2020-12 only. */
    function Prefix(node: Node): Option<seq<Child>> {
      if dialect == Draft202012 then node.prefixItems else None
    }
  }

  function IsType(v: Json, t: JsonType): bool {
    match t
    case TNull => v.Null?
    case TBoolean => v.Bool?
    case TNumber => v.Number?
    case TInteger => v.Number? && v.value.Floor as real == v.value
    case TString => v.String?
    case TArray => v.Array?
    case TObject => v.Object?
  }

  predicate AtLeast(bound: Option<nat>, n: nat) { bound.Some? ==> bound.value <= n }

  predicate AtMost(bound: Option<nat>, n: nat) { bound.Some? ==> n <= bound.value }

  predicate InRange(a: Assertions, x: real) {
    && (a.minimum.Some? ==> a.minimum.value <= x)
    && (a.maximum.Some? ==> x <= a.maximum.value)
    && (a.exclusiveMinimum.Some? ==> a.exclusiveMinimum.value < x)
    && (a.exclusiveMaximum.Some? ==> x < a.exclusiveMaximum.value)
    && (a.multipleOf.Some? && a.multipleOf.value > 0.0 ==> (x / a.multipleOf.value).Floor as real == x / a.multipleOf.value)
  }

  ghost predicate Holds(a: Assertions, v: Json) {
    && (a.types.Some? ==> exists t :: t in a.types.value && IsType(v, t))
    && (v.Object? ==>
          && (forall key :: key in a.required ==> HasKey(v.fields, key))
          && AtLeast(a.minProperties, |v.fields|) && AtMost(a.maxProperties, |v.fields|))
    && (v.Array? ==> AtLeast(a.minItems, |v.elements|) && AtMost(a.maxItems, |v.elements|))
    && (v.Number? ==> InRange(a, v.value))
  }

  /** Which member names apply to a key: the key itself, or a pattern that matches it. */
  function Exactly(key: string): string -> bool {
    name => name == key
  }

  function Matching(doc: Document, key: string): string -> bool {
    pattern => doc.matches(pattern, key)
  }

  ghost function Applying(members: seq<Member>, applies: string -> bool): set<Child> {
    set m | m in members && applies(m.key) :: m.child
  }

  /** The subschemas that apply to a field: by name, by pattern, or as an additional property. */
  ghost function FieldSchemas(doc: Document, node: Node, key: string): set<Child> {
    var named := Applying(node.properties, Exactly(key));
    var matched := Applying(node.patternProperties, Matching(doc, key));
    named + matched +
    (if named == {} && matched == {} && node.additionalProperties.Some? then {node.additionalProperties.value} else {})
  }

  /** The subschema that applies to an element, in the array keywords of the dialect. */
  function ItemSchema(doc: Document, node: Node, j: nat): Option<Child> {
    match node.items
    case Some(Tuple(children)) => if j < |children| then Some(children[j]) else node.additionalItems
    case Some(Each(child)) => if InPrefix(doc, node, j) then Some(doc.Prefix(node).value[j]) else Some(child)
    case None => if InPrefix(doc, node, j) then Some(doc.Prefix(node).value[j]) else None
  }

  predicate InPrefix(doc: Document, node: Node, j: nat) {
    doc.Prefix(node).Some? && j < |doc.Prefix(node).value|
  }

  /** Subschemas that the value itself must satisfy. */
  ghost function SelfSchemas(node: Node): set<Child> {
    (if node.ref.Some? && node.ref.value.Resolved? then {node.ref.value.target} else {}) + (if node.allOf.Some? then set c | c in node.allOf.value else {})
  }

  /** One application of a subschema to a part of the value. */
  datatype Demand = Demand(child: Child, value: Json)

  ghost predicate IsDemand(doc: Document, node: Node, v: Json, d: Demand) {
    || (d.value == v && d.child in SelfSchemas(node))
    || (v.Object? && exists j :: 0 <= j < |v.fields| && d.value == v.fields[j].value && d.child in FieldSchemas(doc, node, v.fields[j].key))
    || (v.Array? && exists j :: 0 <= j < |v.elements| && d.value == v.elements[j] && ItemSchema(doc, node, j) == Some(d.child))
  }

  datatype Verdict = Accept | Reject | Unfinished

  /** Native validation with at most fuel nested schema objects; a reference cycle never finishes. */
  ghost function Check(doc: Document, fuel: nat, child: Child, v: Json): Verdict
    decreases fuel, 0
  {
    match child
    case Always(accepts) => if accepts then Accept else Reject
    case At(id) =>
      if fuel == 0 || id !in doc.nodes then Unfinished
      else
        var node := doc.nodes[id];
        if doc.Ignores(node) then (if node.ref.value.Resolved? then Check(doc, fuel - 1, node.ref.value.target, v) else Unfinished)
        else if Accepts(doc, fuel - 1, node, v) then Accept
        else if Rejects(doc, fuel - 1, node, v) then Reject
        else Unfinished
  }

  ghost predicate Accepts(doc: Document, fuel: nat, node: Node, v: Json)
    decreases fuel, 1, 1
  {
    && node.ref != Some(Unresolved) && Holds(node.assertions, v) && node.residue(v)
    && (forall d :: IsDemand(doc, node, v, d) ==> Check(doc, fuel, d.child, d.value) == Accept)
    && (node.anyOf.Some? ==> exists i :: 0 <= i < |node.anyOf.value| && Check(doc, fuel, node.anyOf.value[i], v) == Accept)
    && (node.oneOf.Some? ==> exists i :: 0 <= i < |node.oneOf.value| && OnlyBranch(doc, fuel, node.oneOf.value, v, i))
  }

  ghost predicate OnlyBranch(doc: Document, fuel: nat, branches: seq<Child>, v: Json, i: nat)
    requires i < |branches|
    decreases fuel, 1, 0
  {
    && Check(doc, fuel, branches[i], v) == Accept
    && (forall k :: 0 <= k < |branches| && k != i ==> Check(doc, fuel, branches[k], v) == Reject)
  }

  ghost predicate Rejects(doc: Document, fuel: nat, node: Node, v: Json)
    decreases fuel, 1, 1
  {
    || !Holds(node.assertions, v) || !node.residue(v)
    || (exists d :: IsDemand(doc, node, v, d) && Check(doc, fuel, d.child, d.value) == Reject)
    || (node.anyOf.Some? && forall i :: 0 <= i < |node.anyOf.value| ==> Check(doc, fuel, node.anyOf.value[i], v) == Reject)
    || (node.oneOf.Some? && forall i :: 0 <= i < |node.oneOf.value| ==> Check(doc, fuel, node.oneOf.value[i], v) == Reject)
    || (node.oneOf.Some? && exists i, k :: 0 <= i < k < |node.oneOf.value| && BothBranches(doc, fuel, node.oneOf.value, v, i, k))
  }

  ghost predicate BothBranches(doc: Document, fuel: nat, branches: seq<Child>, v: Json, i: nat, k: nat)
    requires i < |branches| && k < |branches|
    decreases fuel, 1, 0
  {
    Check(doc, fuel, branches[i], v) == Accept && Check(doc, fuel, branches[k], v) == Accept
  }

  /** The reference meaning of the public view: kept keywords only, with exclusive unions read as unions. */
  ghost predicate Structural(doc: Document, fuel: nat, child: Child, v: Json)
    decreases fuel, 0
  {
    match child
    case Always(accepts) => accepts
    case At(id) =>
      && fuel > 0 && id in doc.nodes
      && if doc.Hides(doc.nodes[id])
         then doc.nodes[id].ref.value.Resolved? && Structural(doc, fuel - 1, doc.nodes[id].ref.value.target, v)
         else StructuralNode(doc, fuel - 1, doc.nodes[id], v)
  }

  ghost predicate StructuralNode(doc: Document, fuel: nat, node: Node, v: Json)
    decreases fuel, 1
  {
    && node.ref != Some(Unresolved) && Holds(node.assertions, v)
    && (forall d :: IsDemand(doc, node, v, d) ==> Structural(doc, fuel, d.child, d.value))
    && (forall branches :: branches in Choices(node) ==>
          exists i :: 0 <= i < |branches| && Structural(doc, fuel, branches[i], v))
  }

  ghost function Choices(node: Node): set<seq<Child>> {
    (if node.anyOf.Some? then {node.anyOf.value} else {}) + (if node.oneOf.Some? then {node.oneOf.value} else {})
  }

  // ----- Public schemas ---------------------------------------------------------------------

  /** A boolean, or a reference to the definition value0, value1, ... with that number. */
  datatype Link = Fixed(accepts: bool) | Named(name: nat)

  datatype Entry = Entry(key: string, link: Link)

  datatype Constraint = One(link: Link) | All(links: seq<Link>) | Any(links: seq<Link>)

  datatype Shape =
    | Forward(link: Link)
    | Shape(assertions: Assertions, properties: seq<Entry>, patternProperties: seq<Entry>,
            items: Option<Link>, prefixItems: Option<seq<Link>>, additionalProperties: Option<Link>, allOf: seq<Constraint>)

  /** Every definition is the marker or a shape; Empty is the placeholder of one under construction. */
  datatype Definition = Empty | MarkerOr(shape: Shape)

  /** The emitted schema: an object satisfying the root link, under the definitions. */
  datatype Public = Public(root: Link, definitions: map<nat, Definition>)

  ghost function ApplyingLinks(entries: seq<Entry>, applies: string -> bool): set<Link> {
    set e | e in entries && applies(e.key) :: e.link
  }

  ghost function FieldLinks(doc: Document, shape: Shape, key: string): set<Link>
    requires shape.Shape?
  {
    var named := ApplyingLinks(shape.properties, Exactly(key));
    var matched := ApplyingLinks(shape.patternProperties, Matching(doc, key));
    named + matched +
    (if named == {} && matched == {} && shape.additionalProperties.Some? then {shape.additionalProperties.value} else {})
  }

  function ItemLink(shape: Shape, j: nat): Option<Link>
    requires shape.Shape?
  {
    if shape.prefixItems.Some? && j < |shape.prefixItems.value| then Some(shape.prefixItems.value[j]) else shape.items
  }

  /** 2020-12 validation of the emitted vocabulary, with at most fuel nested references. */
  ghost predicate Satisfies(doc: Document, definitions: map<nat, Definition>, fuel: nat, link: Link, w: Json)
    decreases fuel, 0
  {
    match link
    case Fixed(accepts) => accepts
    case Named(name) =>
      && fuel > 0 && name in definitions
      && match definitions[name]
         case Empty => true
         case MarkerOr(shape) => w == String(MARKER) || Fits(doc, definitions, fuel - 1, shape, w)
  }

  ghost predicate Fits(doc: Document, definitions: map<nat, Definition>, fuel: nat, shape: Shape, w: Json)
    decreases fuel, 2
  {
    match shape
    case Forward(link) => Satisfies(doc, definitions, fuel, link, w)
    case Shape(assertions, _, _, _, _, _, constraints) =>
      && Holds(assertions, w)
      && (w.Object? ==> forall j, link :: 0 <= j < |w.fields| && link in FieldLinks(doc, shape, w.fields[j].key) ==>
            Satisfies(doc, definitions, fuel, link, w.fields[j].value))
      && (w.Array? ==> forall j :: 0 <= j < |w.elements| && ItemLink(shape, j).Some? ==>
            Satisfies(doc, definitions, fuel, ItemLink(shape, j).value, w.elements[j]))
      && (forall k :: 0 <= k < |constraints| ==> Meets(doc, definitions, fuel, constraints[k], w))
  }

  ghost predicate Meets(doc: Document, definitions: map<nat, Definition>, fuel: nat, constraint: Constraint, w: Json)
    decreases fuel, 1
  {
    match constraint
    case One(link) => Satisfies(doc, definitions, fuel, link, w)
    case All(links) => forall i :: 0 <= i < |links| ==> Satisfies(doc, definitions, fuel, links[i], w)
    case Any(links) => exists i :: 0 <= i < |links| && Satisfies(doc, definitions, fuel, links[i], w)
  }

  // ----- The projection ---------------------------------------------------------------------

  /** A node without a name gets a link that accepts nothing; the projection never emits one. */
  function LinkOf(names: map<nat, nat>, child: Child): Link {
    match child
    case Always(accepts) => Fixed(accepts)
    case At(id) => if id in names then Named(names[id]) else Fixed(false)
  }

  function LinksOf(names: map<nat, nat>, children: seq<Child>): (links: seq<Link>) {
    seq(|children|, i requires 0 <= i < |children| => LinkOf(names, children[i]))
  }

  function EntriesOf(names: map<nat, nat>, members: seq<Member>): (entries: seq<Entry>) {
    seq(|members|, i requires 0 <= i < |members| => Entry(members[i].key, LinkOf(names, members[i].child)))
  }

  function AdditionalItems(node: Node): Child {
    if node.additionalItems.Some? then node.additionalItems.value else Always(true)
  }

  function UnionsOf(names: map<nat, nat>, node: Node): seq<Constraint> {
    (if node.allOf.Some? then [All(LinksOf(names, node.allOf.value))] else []) +
    (if node.anyOf.Some? then [Any(LinksOf(names, node.anyOf.value))] else []) +
    (if node.oneOf.Some? then [Any(LinksOf(names, node.oneOf.value))] else [])
  }

  function ReferenceOf(names: map<nat, nat>, node: Node): seq<Constraint> {
    if node.ref.Some? && node.ref.value.Resolved? then [One(LinkOf(names, node.ref.value.target))] else []
  }

  /** The constraints in the order the projection collects them. */
  function ConstraintsOf(names: map<nat, nat>, node: Node): seq<Constraint> {
    ReferenceOf(names, node) + UnionsOf(names, node)
  }

  function AdditionalOf(names: map<nat, nat>, node: Node): Option<Link> {
    if node.additionalProperties.Some? then Some(LinkOf(names, node.additionalProperties.value)) else None
  }

  /** The shape of a node, once everything it mentions has a name. */
  function ShapeOf(doc: Document, names: map<nat, nat>, node: Node): Shape {
    if doc.Hides(node) then Forward(if node.ref.value.Resolved? then LinkOf(names, node.ref.value.target) else Fixed(false))
    else
      Shape(node.assertions,
        EntriesOf(names, node.properties),
        EntriesOf(names, node.patternProperties),
        ItemsOf(names, node),
        PrefixOf(doc, names, node),
        AdditionalOf(names, node),
        ConstraintsOf(names, node))
  }

  function ChildrenOf(members: seq<Member>): seq<Child> {
    seq(|members|, i requires 0 <= i < |members| => members[i].child)
  }

  function OptionalSeq(children: Option<seq<Child>>): seq<Child> {
    if children.Some? then children.value else []
  }

  function RefChildren(node: Node): seq<Child> {
    if node.ref.Some? && node.ref.value.Resolved? then [node.ref.value.target] else []
  }

  function ItemChildren(node: Node): seq<Child> {
    match node.items
    case None => []
    case Some(Each(child)) => [child]
    case Some(Tuple(children)) => children + [AdditionalItems(node)]
  }

  function AdditionalChildren(node: Node): seq<Child> {
    if node.additionalProperties.Some? then [node.additionalProperties.value] else []
  }

  /** Every subschema the projection visits from a node, a hidden sibling of a reference excepted. */
  function Visited(doc: Document, node: Node): seq<Child> {
    if doc.Hides(node) then RefChildren(node)
    else
      RefChildren(node) + ChildrenOf(node.properties) + ChildrenOf(node.patternProperties) + ItemChildren(node) +
      OptionalSeq(doc.Prefix(node)) + AdditionalChildren(node) +
      OptionalSeq(node.allOf) + OptionalSeq(node.anyOf) + OptionalSeq(node.oneOf)
  }

  /** Subschemas are in the document, and 2020-12 has no array form of items. */
  ghost predicate WellFormed(doc: Document) {
    && doc.root in doc.nodes
    && (forall id {:trigger Visited(doc, doc.nodes[id])} :: id in doc.nodes ==> AllKnown(doc.nodes.Keys, Visited(doc, doc.nodes[id])))
    && (forall id {:trigger ModernItems(doc, doc.nodes[id])} :: id in doc.nodes ==> ModernItems(doc, doc.nodes[id]))
  }

  predicate ModernItems(doc: Document, node: Node) {
    doc.dialect == Draft202012 && node.items.Some? ==> node.items.value.Each?
  }

  predicate Known(ids: set<nat>, child: Child) {
    child.At? ==> child.id in ids
  }

  ghost predicate AllKnown(ids: set<nat>, children: seq<Child>) {
    forall i :: 0 <= i < |children| ==> Known(ids, children[i])
  }

  /** Everything the node mentions is resolved and in ids. */
  ghost predicate Ready(doc: Document, ids: set<nat>, node: Node) {
    node.ref != Some(Unresolved) && AllKnown(ids, Visited(doc, node))
  }

  /** The finished tables: all named nodes are defined, in terms of named nodes. */
  ghost predicate Complete(doc: Document, names: map<nat, nat>, definitions: map<nat, Definition>) {
    forall id {:trigger Finished(doc, names, definitions, id)} :: id in names ==> Finished(doc, names, definitions, id)
  }

  ghost predicate Finished(doc: Document, names: map<nat, nat>, definitions: map<nat, Definition>, id: nat) {
    && id in doc.nodes && id in names && Ready(doc, names.Keys, doc.nodes[id])
    && names[id] in definitions && definitions[names[id]] == MarkerOr(ShapeOf(doc, names, doc.nodes[id]))
  }

  // ----- What the shapes mean ---------------------------------------------------------------

  /** The links are those of the children, no more and no fewer. */
  ghost predicate Linked(names: map<nat, nat>, links: set<Link>, children: set<Child>) {
    && (forall link :: link in links ==> exists c :: c in children && link == LinkOf(names, c))
    && (forall c :: c in children ==> LinkOf(names, c) in links)
  }

  lemma EntriesAreLinked(names: map<nat, nat>, members: seq<Member>, applies: string -> bool)
    ensures Linked(names, ApplyingLinks(EntriesOf(names, members), applies), Applying(members, applies))
    ensures ApplyingLinks(EntriesOf(names, members), applies) == {} <==> Applying(members, applies) == {}
  {
    var entries := EntriesOf(names, members);
    var links, children := ApplyingLinks(entries, applies), Applying(members, applies);
    forall link | link in links ensures exists c :: c in children && link == LinkOf(names, c) {
      var i :| 0 <= i < |entries| && applies(entries[i].key) && entries[i].link == link;
      assert members[i] in members && members[i].child in children;
    }
    forall c | c in children ensures LinkOf(names, c) in links {
      var i :| 0 <= i < |members| && applies(members[i].key) && members[i].child == c;
      assert entries[i] in entries && entries[i].link in links;
    }
    if children != {} {
      var c :| c in children;
      assert LinkOf(names, c) in links;
    }
  }

  /** The public shape constrains a field by the links of exactly the subschemas that apply to it. */
  lemma FieldsAreLinked(doc: Document, names: map<nat, nat>, node: Node, key: string)
    requires !doc.Hides(node)
    ensures Linked(names, FieldLinks(doc, ShapeOf(doc, names, node), key), FieldSchemas(doc, node, key))
  {
    EntriesAreLinked(names, node.properties, Exactly(key));
    EntriesAreLinked(names, node.patternProperties, Matching(doc, key));
  }

  ghost predicate MeetsAll(doc: Document, definitions: map<nat, Definition>, fuel: nat, constraints: seq<Constraint>, w: Json) {
    forall k :: 0 <= k < |constraints| ==> Meets(doc, definitions, fuel, constraints[k], w)
  }

  lemma MeetsAllAppend(doc: Document, definitions: map<nat, Definition>, fuel: nat, left: seq<Constraint>, right: seq<Constraint>, w: Json)
    ensures MeetsAll(doc, definitions, fuel, left + right, w) <==>
      MeetsAll(doc, definitions, fuel, left, w) && MeetsAll(doc, definitions, fuel, right, w)
  {
    if MeetsAll(doc, definitions, fuel, left + right, w) {
      forall k | 0 <= k < |left| ensures Meets(doc, definitions, fuel, left[k], w) {
        assert (left + right)[k] == left[k];
      }
      forall k | 0 <= k < |right| ensures Meets(doc, definitions, fuel, right[k], w) {
        assert (left + right)[|left| + k] == right[k];
      }
    }
  }

  lemma {:induction false} MeetsAllOne(doc: Document, definitions: map<nat, Definition>, fuel: nat, constraint: Constraint, w: Json)
    ensures MeetsAll(doc, definitions, fuel, [constraint], w) <==> Meets(doc, definitions, fuel, constraint, w)
  {
    if MeetsAll(doc, definitions, fuel, [constraint], w) {
      assert Meets(doc, definitions, fuel, [constraint][0], w);
    }
  }

  ghost predicate MeetsUnion(doc: Document, names: map<nat, nat>, definitions: map<nat, Definition>, fuel: nat, union: Option<seq<Child>>, w: Json) {
    union.Some? ==> SomeBranch(doc, names, definitions, fuel, union.value, w)
  }

  lemma UnionIsLinked(doc: Document, names: map<nat, nat>, definitions: map<nat, Definition>, fuel: nat, union: Option<seq<Child>>, w: Json)
    ensures MeetsAll(doc, definitions, fuel, if union.Some? then [Any(LinksOf(names, union.value))] else [], w)
      <==> MeetsUnion(doc, names, definitions, fuel, union, w)
  {
    if union.Some? {
      BranchesAreLinked(doc, names, definitions, fuel, union.value, w);
      MeetsAllOne(doc, definitions, fuel, Any(LinksOf(names, union.value)), w);
    }
  }

  /** Self-applied subschemas: the reference and every member of allOf. */
  lemma {:induction false} SelfIsLinked(doc: Document, names: map<nat, nat>, definitions: map<nat, Definition>, fuel: nat, node: Node, w: Json)
    ensures (MeetsAll(doc, definitions, fuel, ReferenceOf(names, node), w) &&
             MeetsAll(doc, definitions, fuel, if node.allOf.Some? then [All(LinksOf(names, node.allOf.value))] else [], w))
      <==> forall c :: c in SelfSchemas(node) ==> Satisfies(doc, definitions, fuel, LinkOf(names, c), w)
  {
    var ref := ReferenceOf(names, node);
    if node.ref.Some? && node.ref.value.Resolved? {
      MeetsAllOne(doc, definitions, fuel, ref[0], w);
    }
    if node.allOf.Some? {
      EveryBranch(doc, names, definitions, fuel, node.allOf.value, w);
      MeetsAllOne(doc, definitions, fuel, All(LinksOf(names, node.allOf.value)), w);
    }
  }

  /** The constraints hold when the value satisfies every self-applied subschema and some branch of every union. */
  lemma {:induction false} ConstraintsAreLinked(doc: Document, names: map<nat, nat>, definitions: map<nat, Definition>, fuel: nat, node: Node, w: Json)
    ensures MeetsAll(doc, definitions, fuel, ConstraintsOf(names, node), w) <==>
      ((forall c :: c in SelfSchemas(node) ==> Satisfies(doc, definitions, fuel, LinkOf(names, c), w))
       && MeetsUnion(doc, names, definitions, fuel, node.anyOf, w) && MeetsUnion(doc, names, definitions, fuel, node.oneOf, w))
  {
    var ref := ReferenceOf(names, node);
    var all := if node.allOf.Some? then [All(LinksOf(names, node.allOf.value))] else [];
    var any := if node.anyOf.Some? then [Any(LinksOf(names, node.anyOf.value))] else [];
    var one := if node.oneOf.Some? then [Any(LinksOf(names, node.oneOf.value))] else [];
    MeetsAllAppend(doc, definitions, fuel, ref, all + any + one, w);
    MeetsAllAppend(doc, definitions, fuel, all + any, one, w);
    MeetsAllAppend(doc, definitions, fuel, all, any, w);
    UnionIsLinked(doc, names, definitions, fuel, node.anyOf, w);
    UnionIsLinked(doc, names, definitions, fuel, node.oneOf, w);
    SelfIsLinked(doc, names, definitions, fuel, node, w);
  }

  ghost predicate SomeBranch(doc: Document, names: map<nat, nat>, definitions: map<nat, Definition>, fuel: nat, branches: seq<Child>, w: Json) {
    exists i :: 0 <= i < |branches| && Satisfies(doc, definitions, fuel, LinkOf(names, branches[i]), w)
  }

  lemma {:induction false} BranchesAreLinked(doc: Document, names: map<nat, nat>, definitions: map<nat, Definition>, fuel: nat, branches: seq<Child>, w: Json)
    ensures Meets(doc, definitions, fuel, Any(LinksOf(names, branches)), w) <==> SomeBranch(doc, names, definitions, fuel, branches, w)
  {
    var links := LinksOf(names, branches);
    if i :| 0 <= i < |branches| && Satisfies(doc, definitions, fuel, LinkOf(names, branches[i]), w) {
      assert Satisfies(doc, definitions, fuel, links[i], w);
    }
  }

  lemma {:induction false} EveryBranch(doc: Document, names: map<nat, nat>, definitions: map<nat, Definition>, fuel: nat, branches: seq<Child>, w: Json)
    ensures Meets(doc, definitions, fuel, All(LinksOf(names, branches)), w) <==>
      forall c :: c in branches ==> Satisfies(doc, definitions, fuel, LinkOf(names, c), w)
  {
    var links := LinksOf(names, branches);
    if Meets(doc, definitions, fuel, All(links), w) {
      forall c | c in branches ensures Satisfies(doc, definitions, fuel, LinkOf(names, c), w) {
        var i :| 0 <= i < |branches| && branches[i] == c;
        assert Satisfies(doc, definitions, fuel, links[i], w);
      }
    }
  }

  // ----- Soundness --------------------------------------------------------------------------

  /** A reference with no keyword beside it. */
  predicate Bare(node: Node) {
    && node.ref.Some?
    && node.assertions == Assertions(None, {}, None, None, None, None, None, None, None, None, None)
    && node.properties == [] && node.patternProperties == [] && node.items.None? && node.prefixItems.None?
    && node.additionalItems.None? && node.additionalProperties.None? && node.allOf.None? && node.anyOf.None? && node.oneOf.None?
  }

  /** Siblings a validator ignores are siblings the projection drops. */
  ghost predicate NoIgnoredSiblings(doc: Document) {
    forall id :: id in doc.nodes && doc.Ignores(doc.nodes[id]) && !doc.Hides(doc.nodes[id]) ==> Bare(doc.nodes[id])
  }

  lemma {:induction false} BareIsStructural(doc: Document, fuel: nat, node: Node, v: Json)
    requires Bare(node) && node.ref.value.Resolved? && Structural(doc, fuel, node.ref.value.target, v)
    ensures StructuralNode(doc, fuel, node, v)
  {
    forall d | IsDemand(doc, node, v, d) ensures d == Demand(node.ref.value.target, v) {
      assert SelfSchemas(node) == {node.ref.value.target};
      forall key ensures FieldSchemas(doc, node, key) == {} {
      }
    }
  }

  /** Native acceptance keeps the structure: dropped keywords and exclusivity only ever restrict. */
  lemma {:induction false} AcceptedIsStructural(doc: Document, fuel: nat, child: Child, v: Json)
    requires NoIgnoredSiblings(doc) && Check(doc, fuel, child, v) == Accept
    ensures Structural(doc, fuel, child, v)
    decreases fuel, 1
  {
    if child.At? {
      var node := doc.nodes[child.id];
      if doc.Ignores(node) {
        AcceptedIsStructural(doc, fuel - 1, node.ref.value.target, v);
        if !doc.Hides(node) {
          BareIsStructural(doc, fuel - 1, node, v);
        }
      } else {
        AcceptedNodeIsStructural(doc, fuel - 1, node, v);
      }
    }
  }

  lemma {:induction false} AcceptedNodeIsStructural(doc: Document, fuel: nat, node: Node, v: Json)
    requires NoIgnoredSiblings(doc) && Accepts(doc, fuel, node, v)
    ensures StructuralNode(doc, fuel, node, v)
    decreases fuel, 2
  {
    forall d | IsDemand(doc, node, v, d) ensures Structural(doc, fuel, d.child, d.value) {
      AcceptedIsStructural(doc, fuel, d.child, d.value);
    }
    forall branches | branches in Choices(node) ensures exists i :: 0 <= i < |branches| && Structural(doc, fuel, branches[i], v) {
      var i :| 0 <= i < |branches| && Check(doc, fuel, branches[i], v) == Accept;
      AcceptedIsStructural(doc, fuel, branches[i], v);
    }
  }

  /** A hidden shape forwards to the reference. */
  lemma {:induction false} HiddenMeans(doc: Document, names: map<nat, nat>, definitions: map<nat, Definition>, fuel: nat, id: nat, w: Json)
    requires WellFormed(doc) && Complete(doc, names, definitions) && id in names && id in doc.nodes && doc.Hides(doc.nodes[id])
    ensures doc.nodes[id].ref.value.Resolved? && Known(names.Keys, doc.nodes[id].ref.value.target)
    ensures Satisfies(doc, definitions, fuel + 1, LinkOf(names, At(id)), w) <==>
      (w == String(MARKER) || Satisfies(doc, definitions, fuel, LinkOf(names, doc.nodes[id].ref.value.target), w))
  {
    assert Finished(doc, names, definitions, id);
    assert Visited(doc, doc.nodes[id])[0] == doc.nodes[id].ref.value.target;
  }

  /** A finished name stands for the marker or the shape of its node. */
  lemma {:induction false} NamedMeans(doc: Document, names: map<nat, nat>, definitions: map<nat, Definition>, fuel: nat, id: nat, w: Json)
    requires WellFormed(doc) && Complete(doc, names, definitions) && id in names && id in doc.nodes && !doc.Hides(doc.nodes[id])
    ensures ModernItems(doc, doc.nodes[id]) && Ready(doc, names.Keys, doc.nodes[id])
    ensures Satisfies(doc, definitions, fuel + 1, LinkOf(names, At(id)), w) <==>
      (w == String(MARKER) || FitsNode(doc, names, definitions, fuel, doc.nodes[id], w))
  {
    assert Finished(doc, names, definitions, id);
  }

  lemma NamedIsNode(doc: Document, names: map<nat, nat>, definitions: map<nat, Definition>, id: nat)
    requires Complete(doc, names, definitions) && id in names
    ensures id in doc.nodes
  {
    assert Finished(doc, names, definitions, id);
  }

  lemma {:induction false} MarkerIsAccepted(doc: Document, names: map<nat, nat>, definitions: map<nat, Definition>, fuel: nat, id: nat)
    requires Complete(doc, names, definitions) && id in names && fuel > 0
    ensures Satisfies(doc, definitions, fuel, LinkOf(names, At(id)), String(MARKER))
  {
    assert Finished(doc, names, definitions, id);
  }

  ghost predicate FitsNode(doc: Document, names: map<nat, nat>, definitions: map<nat, Definition>, fuel: nat, node: Node, w: Json)
    requires !doc.Hides(node)
  {
    && Holds(node.assertions, w) && FieldsFit(doc, definitions, fuel, ShapeOf(doc, names, node), w)
    && ElementsFit(doc, definitions, fuel, ShapeOf(doc, names, node), w)
    && MeetsAll(doc, definitions, fuel, ConstraintsOf(names, node), w)
  }

  /** The public view accepts every redaction of what the structure accepts. */
  lemma {:induction false} StructuralIsPublic(doc: Document, names: map<nat, nat>, definitions: map<nat, Definition>,
                                              fuel: nat, child: Child, v: Json, w: Json)
    requires WellFormed(doc) && Complete(doc, names, definitions) && Known(names.Keys, child)
    requires Structural(doc, fuel, child, v) && Redacted(v, w)
    ensures Satisfies(doc, definitions, fuel, LinkOf(names, child), w)
    decreases fuel, 1
  {
    if child.At? {
      if w == String(MARKER) {
        MarkerIsAccepted(doc, names, definitions, fuel, child.id);
      } else if doc.Hides(doc.nodes[child.id]) {
        HiddenMeans(doc, names, definitions, fuel - 1, child.id, w);
        StructuralIsPublic(doc, names, definitions, fuel - 1, doc.nodes[child.id].ref.value.target, v, w);
      } else {
        NodeIsPublic(doc, names, definitions, fuel - 1, child.id, v, w);
      }
    }
  }

  lemma {:induction false} NodeIsPublic(doc: Document, names: map<nat, nat>, definitions: map<nat, Definition>,
                                        fuel: nat, id: nat, v: Json, w: Json)
    requires WellFormed(doc) && Complete(doc, names, definitions) && id in names && id in doc.nodes && !doc.Hides(doc.nodes[id])
    requires StructuralNode(doc, fuel, doc.nodes[id], v) && RedactedBelow(v, w)
    ensures Satisfies(doc, definitions, fuel + 1, LinkOf(names, At(id)), w)
    decreases fuel, 3
  {
    var node := doc.nodes[id];
    NamedMeans(doc, names, definitions, fuel, id, w);
    FieldsArePublic(doc, names, definitions, fuel, node, v, w);
    ElementsArePublic(doc, names, definitions, fuel, node, v, w);
    ConstraintsArePublic(doc, names, definitions, fuel, node, v, w);
  }

  ghost predicate FieldsFit(doc: Document, definitions: map<nat, Definition>, fuel: nat, shape: Shape, w: Json)
    requires shape.Shape?
  {
    w.Object? ==> forall j, link :: 0 <= j < |w.fields| && link in FieldLinks(doc, shape, w.fields[j].key) ==>
      Satisfies(doc, definitions, fuel, link, w.fields[j].value)
  }

  lemma {:induction false} FieldsArePublic(doc: Document, names: map<nat, nat>, definitions: map<nat, Definition>,
                                           fuel: nat, node: Node, v: Json, w: Json)
    requires WellFormed(doc) && Complete(doc, names, definitions) && Ready(doc, names.Keys, node)
    requires !doc.Hides(node) && StructuralNode(doc, fuel, node, v) && RedactedBelow(v, w)
    ensures FieldsFit(doc, definitions, fuel, ShapeOf(doc, names, node), w)
    decreases fuel, 2
  {
    if w.Object? {
      var shape := ShapeOf(doc, names, node);
      forall j, link | 0 <= j < |w.fields| && link in FieldLinks(doc, shape, w.fields[j].key)
        ensures Satisfies(doc, definitions, fuel, link, w.fields[j].value)
      {
        FieldsAreLinked(doc, names, node, w.fields[j].key);
        var c :| c in FieldSchemas(doc, node, w.fields[j].key) && link == LinkOf(names, c);
        var d := Demand(c, v.fields[j].value);
        DemandIsKnown(doc, names.Keys, node, v, d);
        StructuralIsPublic(doc, names, definitions, fuel, c, v.fields[j].value, w.fields[j].value);
      }
    }
  }

  ghost predicate ElementsFit(doc: Document, definitions: map<nat, Definition>, fuel: nat, shape: Shape, w: Json)
    requires shape.Shape?
  {
    w.Array? ==> forall j :: 0 <= j < |w.elements| && ItemLink(shape, j).Some? ==>
      Satisfies(doc, definitions, fuel, ItemLink(shape, j).value, w.elements[j])
  }

  lemma {:induction false} ElementsArePublic(doc: Document, names: map<nat, nat>, definitions: map<nat, Definition>,
                                             fuel: nat, node: Node, v: Json, w: Json)
    requires WellFormed(doc) && Complete(doc, names, definitions) && Ready(doc, names.Keys, node) && ModernItems(doc, node)
    requires !doc.Hides(node) && StructuralNode(doc, fuel, node, v) && RedactedBelow(v, w)
    ensures ElementsFit(doc, definitions, fuel, ShapeOf(doc, names, node), w)
    decreases fuel, 2
  {
    if w.Array? {
      var shape := ShapeOf(doc, names, node);
      forall j | 0 <= j < |w.elements| && ItemLink(shape, j).Some?
        ensures Satisfies(doc, definitions, fuel, ItemLink(shape, j).value, w.elements[j])
      {
        var item := ItemSchema(doc, node, j);
        if item.Some? {
          var d := Demand(item.value, v.elements[j]);
          DemandIsKnown(doc, names.Keys, node, v, d);
          StructuralIsPublic(doc, names, definitions, fuel, d.child, v.elements[j], w.elements[j]);
        }
      }
    }
  }

  lemma {:induction false} ConstraintsArePublic(doc: Document, names: map<nat, nat>, definitions: map<nat, Definition>,
                                                fuel: nat, node: Node, v: Json, w: Json)
    requires WellFormed(doc) && Complete(doc, names, definitions) && Ready(doc, names.Keys, node)
    requires !doc.Hides(node) && StructuralNode(doc, fuel, node, v) && RedactedBelow(v, w)
    ensures MeetsAll(doc, definitions, fuel, ConstraintsOf(names, node), w)
    decreases fuel, 2
  {
    ConstraintsAreLinked(doc, names, definitions, fuel, node, w);
    forall c | c in SelfSchemas(node) ensures Satisfies(doc, definitions, fuel, LinkOf(names, c), w) {
      DemandIsKnown(doc, names.Keys, node, v, Demand(c, v));
      StructuralIsPublic(doc, names, definitions, fuel, c, v, w);
    }
    forall union | union in {node.anyOf, node.oneOf} ensures MeetsUnion(doc, names, definitions, fuel, union, w) {
      if union.Some? {
        assert union.value in Choices(node);
        var i :| 0 <= i < |union.value| && Structural(doc, fuel, union.value[i], v);
        ChoiceIsKnown(doc, names.Keys, node, union.value, i);
        StructuralIsPublic(doc, names, definitions, fuel, union.value[i], v, w);
      }
    }
  }

  // ----- Exactness --------------------------------------------------------------------------

  /** On a value that nowhere equals the marker, the public view accepts no more than the structure does. */
  lemma {:induction false} PublicIsStructural(doc: Document, names: map<nat, nat>, definitions: map<nat, Definition>,
                                              fuel: nat, child: Child, v: Json)
    requires WellFormed(doc) && Complete(doc, names, definitions) && Known(names.Keys, child) && MarkerFree(v)
    requires Satisfies(doc, definitions, fuel, LinkOf(names, child), v)
    ensures Structural(doc, fuel, child, v)
    decreases fuel, 1
  {
    if child.At? {
      NamedIsNode(doc, names, definitions, child.id);
      var node := doc.nodes[child.id];
      if doc.Hides(node) {
        HiddenMeans(doc, names, definitions, fuel - 1, child.id, v);
        PublicIsStructural(doc, names, definitions, fuel - 1, node.ref.value.target, v);
      } else {
        NamedMeans(doc, names, definitions, fuel - 1, child.id, v);
        FitIsStructural(doc, names, definitions, fuel - 1, node, v);
      }
    }
  }

  lemma {:induction false} FitIsStructural(doc: Document, names: map<nat, nat>, definitions: map<nat, Definition>,
                                           fuel: nat, node: Node, v: Json)
    requires WellFormed(doc) && Complete(doc, names, definitions) && ModernItems(doc, node) && Ready(doc, names.Keys, node)
    requires !doc.Hides(node) && MarkerFree(v) && FitsNode(doc, names, definitions, fuel, node, v)
    ensures StructuralNode(doc, fuel, node, v)
    decreases fuel, 3
  {
    ConstraintsAreLinked(doc, names, definitions, fuel, node, v);
    assert MeetsAll(doc, definitions, fuel, ConstraintsOf(names, node), v);
    forall d | IsDemand(doc, node, v, d) ensures Structural(doc, fuel, d.child, d.value) {
      DemandIsKnown(doc, names.Keys, node, v, d);
      DemandIsSatisfied(doc, names, definitions, fuel, node, v, d);
      PublicIsStructural(doc, names, definitions, fuel, d.child, d.value);
    }
    forall branches | branches in Choices(node)
      ensures exists i :: 0 <= i < |branches| && Structural(doc, fuel, branches[i], v)
    {
      assert SomeBranch(doc, names, definitions, fuel, branches, v);
      var i :| 0 <= i < |branches| && Satisfies(doc, definitions, fuel, LinkOf(names, branches[i]), v);
      ChoiceIsKnown(doc, names.Keys, node, branches, i);
      PublicIsStructural(doc, names, definitions, fuel, branches[i], v);
    }
  }

  lemma {:induction false} DemandIsSatisfied(doc: Document, names: map<nat, nat>, definitions: map<nat, Definition>,
                          fuel: nat, node: Node, v: Json, d: Demand)
    requires WellFormed(doc) && ModernItems(doc, node) && !doc.Hides(node) && MarkerFree(v)
    requires FitsNode(doc, names, definitions, fuel, node, v) && IsDemand(doc, node, v, d)
    ensures Satisfies(doc, definitions, fuel, LinkOf(names, d.child), d.value) && MarkerFree(d.value)
  {
    var shape := ShapeOf(doc, names, node);
    if d.value == v && d.child in SelfSchemas(node) {
      ConstraintsAreLinked(doc, names, definitions, fuel, node, v);
      assert MeetsAll(doc, definitions, fuel, ConstraintsOf(names, node), v);
    } else if v.Object? {
      var j :| 0 <= j < |v.fields| && d.value == v.fields[j].value && d.child in FieldSchemas(doc, node, v.fields[j].key);
      FieldsAreLinked(doc, names, node, v.fields[j].key);
      assert LinkOf(names, d.child) in FieldLinks(doc, shape, v.fields[j].key);
    } else {
      var j :| 0 <= j < |v.elements| && d.value == v.elements[j] && ItemSchema(doc, node, j) == Some(d.child);
    }
  }

  // ----- What a validator visits, the projection has visited -------------------------------------

  lemma DemandIsKnown(doc: Document, ids: set<nat>, node: Node, v: Json, d: Demand)
    requires Ready(doc, ids, node) && !doc.Hides(node) && IsDemand(doc, node, v, d)
    ensures Known(ids, d.child)
  {
    if d.child in SelfSchemas(node) {
      SelfIsVisited(doc, node, d.child);
    } else if j :| v.Object? && 0 <= j < |v.fields| && d.child in FieldSchemas(doc, node, v.fields[j].key) {
      FieldIsVisited(doc, node, v.fields[j].key, d.child);
    } else {
      var j :| v.Array? && 0 <= j < |v.elements| && ItemSchema(doc, node, j) == Some(d.child);
      ItemIsVisited(doc, node, j);
    }
  }

  lemma ChoiceIsKnown(doc: Document, ids: set<nat>, node: Node, branches: seq<Child>, i: nat)
    requires Ready(doc, ids, node) && !doc.Hides(node) && branches in Choices(node) && i < |branches|
    ensures Known(ids, branches[i])
  {
    assert branches[i] in OptionalSeq(node.anyOf) || branches[i] in OptionalSeq(node.oneOf);
    assert branches[i] in Visited(doc, node);
  }

  lemma SelfIsVisited(doc: Document, node: Node, c: Child)
    requires !doc.Hides(node) && c in SelfSchemas(node)
    ensures c in Visited(doc, node)
  {
    assert c in (if node.ref.Some? && node.ref.value.Resolved? then [node.ref.value.target] else []) || c in OptionalSeq(node.allOf);
  }

  lemma ItemIsVisited(doc: Document, node: Node, j: nat)
    requires !doc.Hides(node) && ItemSchema(doc, node, j).Some?
    ensures ItemSchema(doc, node, j).value in Visited(doc, node)
  {
    var c := ItemSchema(doc, node, j).value;
    if node.items.Some? && node.items.value.Tuple? {
      assert c in node.items.value.children + [AdditionalItems(node)];
    } else {
      assert (node.items.Some? && c in [node.items.value.child]) || c in OptionalSeq(doc.Prefix(node));
    }
  }

  lemma FieldIsVisited(doc: Document, node: Node, key: string, c: Child)
    requires !doc.Hides(node) && c in FieldSchemas(doc, node, key)
    ensures c in Visited(doc, node)
  {
    if c in Applying(node.properties, Exactly(key)) {
      MemberIsVisited(node.properties, Exactly(key), c);
    } else if c in Applying(node.patternProperties, Matching(doc, key)) {
      MemberIsVisited(node.patternProperties, Matching(doc, key), c);
    } else {
      assert c in [node.additionalProperties.value];
    }
  }

  lemma MemberIsVisited(members: seq<Member>, applies: string -> bool, c: Child)
    requires c in Applying(members, applies)
    ensures c in ChildrenOf(members)
  {
    var i :| 0 <= i < |members| && members[i].child == c;
    assert ChildrenOf(members)[i] == c;
  }

  // ----- The recursion that fills the tables ------------------------------------------------

  ghost predicate Extends(names: map<nat, nat>, more: map<nat, nat>) {
    forall id :: id in names ==> id in more && more[id] == names[id]
  }

  /** Shapes made of named nodes do not change when more nodes get names. */
  lemma LinksAreStable(names: map<nat, nat>, more: map<nat, nat>, children: seq<Child>)
    requires Extends(names, more) && AllKnown(names.Keys, children)
    ensures LinksOf(more, children) == LinksOf(names, children) && AllKnown(more.Keys, children)
  {
    forall i | 0 <= i < |children| ensures LinkOf(more, children[i]) == LinkOf(names, children[i]) && Known(more.Keys, children[i]) {
      assert Known(names.Keys, children[i]);
    }
  }

  /** Closed under everything the projection visits. */
  ghost predicate ClosedNodes(doc: Document, s: set<nat>) {
    forall id :: id in s ==> id in doc.nodes && AllKnown(s, Visited(doc, doc.nodes[id]))
  }

  /** Nothing reachable is unresolved. */
  ghost predicate Resolvable(doc: Document, child: Child) {
    exists s: set<nat> :: ClosedNodes(doc, s) && Known(s, child) && AllResolved(doc, s)
  }

  ghost predicate AllResolved(doc: Document, s: set<nat>) {
    forall id :: id in s ==> id in doc.nodes && doc.nodes[id].ref != Some(Unresolved)
  }

  lemma EntriesAreStable(names: map<nat, nat>, more: map<nat, nat>, members: seq<Member>)
    requires Extends(names, more) && AllKnown(names.Keys, ChildrenOf(members))
    ensures EntriesOf(more, members) == EntriesOf(names, members) && AllKnown(more.Keys, ChildrenOf(members))
  {
    LinksAreStable(names, more, ChildrenOf(members));
    forall i | 0 <= i < |members| ensures LinkOf(more, members[i].child) == LinkOf(names, members[i].child) {
      assert ChildrenOf(members)[i] == members[i].child;
      assert LinksOf(more, ChildrenOf(members))[i] == LinksOf(names, ChildrenOf(members))[i];
    }
  }

  lemma AllKnownAppend(ids: set<nat>, left: seq<Child>, right: seq<Child>)
    ensures AllKnown(ids, left + right) <==> AllKnown(ids, left) && AllKnown(ids, right)
  {
    if AllKnown(ids, left + right) {
      forall i | 0 <= i < |left| ensures Known(ids, left[i]) {
        assert (left + right)[i] == left[i];
      }
      forall i | 0 <= i < |right| ensures Known(ids, right[i]) {
        assert (left + right)[|left| + i] == right[i];
      }
    }
  }

  ghost predicate PartsKnown(doc: Document, ids: set<nat>, node: Node) {
    && AllKnown(ids, RefChildren(node)) && AllKnown(ids, ChildrenOf(node.properties)) && AllKnown(ids, ChildrenOf(node.patternProperties))
    && AllKnown(ids, ItemChildren(node)) && AllKnown(ids, OptionalSeq(doc.Prefix(node))) && AllKnown(ids, AdditionalChildren(node))
    && AllKnown(ids, OptionalSeq(node.allOf)) && AllKnown(ids, OptionalSeq(node.anyOf)) && AllKnown(ids, OptionalSeq(node.oneOf))
  }

  lemma VisitedIsItsParts(doc: Document, ids: set<nat>, node: Node)
    requires !doc.Hides(node)
    ensures AllKnown(ids, Visited(doc, node)) <==> PartsKnown(doc, ids, node)
  {
    var members := RefChildren(node) + ChildrenOf(node.properties);
    AllKnownAppend(ids, RefChildren(node), ChildrenOf(node.properties));
    AllKnownAppend(ids, members, ChildrenOf(node.patternProperties));
    var items := members + ChildrenOf(node.patternProperties);
    AllKnownAppend(ids, items, ItemChildren(node));
    AllKnownAppend(ids, items + ItemChildren(node), OptionalSeq(doc.Prefix(node)));
    var rest := items + ItemChildren(node) + OptionalSeq(doc.Prefix(node));
    AllKnownAppend(ids, rest, AdditionalChildren(node));
    AllKnownAppend(ids, rest + AdditionalChildren(node), OptionalSeq(node.allOf));
    var all := rest + AdditionalChildren(node) + OptionalSeq(node.allOf);
    AllKnownAppend(ids, all, OptionalSeq(node.anyOf));
    AllKnownAppend(ids, all + OptionalSeq(node.anyOf), OptionalSeq(node.oneOf));
  }

  /** Naming more nodes leaves the shape of a finished node alone. */
  lemma StillReady(doc: Document, names: map<nat, nat>, more: map<nat, nat>, node: Node)
    requires Extends(names, more) && Ready(doc, names.Keys, node)
    ensures Ready(doc, more.Keys, node) && ShapeOf(doc, more, node) == ShapeOf(doc, names, node)
  {
    if !doc.Hides(node) {
      VisitedIsItsParts(doc, names.Keys, node);
      VisitedIsItsParts(doc, more.Keys, node);
    }
    LinksAreStable(names, more, RefChildren(node));
    assert RefChildren(node) != [] ==> LinksOf(more, RefChildren(node))[0] == LinksOf(names, RefChildren(node))[0];
    if !doc.Hides(node) {
      EntriesAreStable(names, more, node.properties);
      EntriesAreStable(names, more, node.patternProperties);
      ItemsAreStable(doc, names, more, node);
      LinksAreStable(names, more, OptionalSeq(node.allOf));
      LinksAreStable(names, more, OptionalSeq(node.anyOf));
      LinksAreStable(names, more, OptionalSeq(node.oneOf));
      AdditionalIsStable(names, more, node);
    }
  }

  lemma AdditionalIsStable(names: map<nat, nat>, more: map<nat, nat>, node: Node)
    requires Extends(names, more) && AllKnown(names.Keys, AdditionalChildren(node))
    ensures AdditionalOf(more, node) == AdditionalOf(names, node) && AllKnown(more.Keys, AdditionalChildren(node))
  {
    LinksAreStable(names, more, AdditionalChildren(node));
    assert AdditionalChildren(node) != [] ==> LinksOf(more, AdditionalChildren(node))[0] == LinksOf(names, AdditionalChildren(node))[0];
  }

  /** The items keyword of the shape, and its prefixItems. */
  function ItemsOf(names: map<nat, nat>, node: Node): Option<Link> {
    match node.items
    case None => None
    case Some(Each(child)) => Some(LinkOf(names, child))
    case Some(Tuple(_)) => Some(LinkOf(names, AdditionalItems(node)))
  }

  function PrefixOf(doc: Document, names: map<nat, nat>, node: Node): Option<seq<Link>> {
    match doc.Prefix(node)
    case Some(children) => Some(LinksOf(names, children))
    case None => if node.items.Some? && node.items.value.Tuple? then Some(LinksOf(names, node.items.value.children)) else None
  }

  lemma ItemsAreStable(doc: Document, names: map<nat, nat>, more: map<nat, nat>, node: Node)
    requires Extends(names, more) && AllKnown(names.Keys, ItemChildren(node)) && AllKnown(names.Keys, OptionalSeq(doc.Prefix(node)))
    ensures ItemsOf(more, node) == ItemsOf(names, node) && PrefixOf(doc, more, node) == PrefixOf(doc, names, node)
    ensures AllKnown(more.Keys, ItemChildren(node)) && AllKnown(more.Keys, OptionalSeq(doc.Prefix(node)))
  {
    LinksAreStable(names, more, OptionalSeq(doc.Prefix(node)));
    LinksAreStable(names, more, ItemChildren(node));
    if node.items.Some? {
      match node.items.value
      case Each(child) =>
        assert LinksOf(more, ItemChildren(node))[0] == LinksOf(names, ItemChildren(node))[0];
      case Tuple(children) =>
        AllKnownAppend(names.Keys, children, [AdditionalItems(node)]);
        LinksAreStable(names, more, children);
        LinksAreStable(names, more, [AdditionalItems(node)]);
        assert LinksOf(more, [AdditionalItems(node)])[0] == LinksOf(names, [AdditionalItems(node)])[0];
    }
  }

  /** Some child reaches an unresolved reference. */
  ghost predicate Fails(doc: Document, children: seq<Child>) {
    exists i :: 0 <= i < |children| && !Resolvable(doc, children[i])
  }

  lemma VisitedAreKnown(doc: Document, id: nat)
    requires WellFormed(doc) && id in doc.nodes
    ensures AllKnown(doc.nodes.Keys, RefChildren(doc.nodes[id]))
    ensures !doc.Hides(doc.nodes[id]) ==> PartsKnown(doc, doc.nodes.Keys, doc.nodes[id])
  {
    assert AllKnown(doc.nodes.Keys, Visited(doc, doc.nodes[id]));
    if !doc.Hides(doc.nodes[id]) {
      VisitedIsItsParts(doc, doc.nodes.Keys, doc.nodes[id]);
    }
  }

  ghost predicate IsPart(doc: Document, node: Node, part: seq<Child>) {
    || part == RefChildren(node)
    || (!doc.Hides(node) && part in [ChildrenOf(node.properties), ChildrenOf(node.patternProperties), ItemChildren(node),
         OptionalSeq(doc.Prefix(node)), AdditionalChildren(node), OptionalSeq(node.allOf), OptionalSeq(node.anyOf), OptionalSeq(node.oneOf)])
  }

  lemma FailsInPart(doc: Document, id: nat, part: seq<Child>)
    requires id in doc.nodes && IsPart(doc, doc.nodes[id], part) && Fails(doc, part)
    ensures !Resolvable(doc, At(id))
  {
    var i :| 0 <= i < |part| && !Resolvable(doc, part[i]);
    assert part[i] in part;
    assert part[i] in Visited(doc, doc.nodes[id]);
  }

  ghost predicate UnionsKnown(ids: set<nat>, node: Node) {
    AllKnown(ids, OptionalSeq(node.allOf)) && AllKnown(ids, OptionalSeq(node.anyOf)) && AllKnown(ids, OptionalSeq(node.oneOf))
  }

  lemma LinksGrow(names: map<nat, nat>, children: seq<Child>, i: nat)
    requires i < |children|
    ensures LinksOf(names, children[..i + 1]) == LinksOf(names, children[..i]) + [LinkOf(names, children[i])]
    ensures AllKnown(names.Keys, children[..i]) && Known(names.Keys, children[i]) ==> AllKnown(names.Keys, children[..i + 1])
  {
  }

  /** Parts linked under growing names are the parts linked under the final ones. */
  lemma Assembled(doc: Document, n0: map<nat, nat>, n2: map<nat, nat>, n4: map<nat, nat>, names: map<nat, nat>, node: Node)
    requires Extends(n0, n2) && Extends(n2, n4) && Extends(n4, names)
    requires !doc.Hides(node) && AllKnown(n0.Keys, RefChildren(node))
    requires AllKnown(n2.Keys, ChildrenOf(node.properties)) && AllKnown(n2.Keys, ChildrenOf(node.patternProperties))
    requires AllKnown(n4.Keys, ItemChildren(node)) && AllKnown(n4.Keys, OptionalSeq(doc.Prefix(node)))
    requires AllKnown(n4.Keys, AdditionalChildren(node)) && UnionsKnown(names.Keys, node)
    ensures AllKnown(names.Keys, Visited(doc, node))
    ensures EntriesOf(names, node.properties) == EntriesOf(n2, node.properties)
    ensures EntriesOf(names, node.patternProperties) == EntriesOf(n2, node.patternProperties)
    ensures ItemsOf(names, node) == ItemsOf(n4, node) && PrefixOf(doc, names, node) == PrefixOf(doc, n4, node)
    ensures AdditionalOf(names, node) == AdditionalOf(n4, node)
    ensures ReferenceOf(names, node) == ReferenceOf(n0, node)
  {
    EntriesAreStable(n2, names, node.properties);
    EntriesAreStable(n2, names, node.patternProperties);
    ItemsAreStable(doc, n4, names, node);
    AdditionalIsStable(n4, names, node);
    LinksAreStable(n0, names, RefChildren(node));
    assert RefChildren(node) != [] ==> LinksOf(names, RefChildren(node))[0] == LinksOf(n0, RefChildren(node))[0];
    VisitedIsItsParts(doc, names.Keys, node);
  }

  lemma TupleLinks(names: map<nat, nat>, node: Node)
    ensures node.items.Some? && node.items.value.Tuple? ==>
      var n := |node.items.value.children|;
      && LinksOf(names, ItemChildren(node))[..n] == LinksOf(names, node.items.value.children)
      && LinksOf(names, ItemChildren(node))[n] == LinkOf(names, AdditionalItems(node))
  {
  }

  class Projection {
    const doc: Document
    var names: map<nat, nat>
    var definitions: map<nat, Definition>
    ghost var pending: set<nat>   // named, with a shape still under construction

    ghost predicate Valid()
      reads this
    {
      && names.Keys <= doc.nodes.Keys && pending <= names.Keys && WellFormed(doc)
      && (forall id :: id in names ==> names[id] < |names|)
      && (forall i, j :: i in names && j in names && names[i] == names[j] ==> i == j)
      && (forall name :: name in definitions ==> exists id :: id in names && names[id] == name)
      && (forall id {:trigger Finished(doc, names, definitions, id)} :: id in names && id !in pending ==>
            Finished(doc, names, definitions, id))
    }

    constructor (doc: Document)
      requires WellFormed(doc)
      ensures this.doc == doc && names == map[] && definitions == map[] && pending == {} && Valid()
    {
      this.doc := doc;
      names, definitions := map[], map[];
      pending := {};
    }

    /** The name of a node, given and defined on first sight; None when a reachable reference is unresolved. */
    method Project(child: Child) returns (link: Option<Link>)
      requires Valid() && Known(doc.nodes.Keys, child)
      modifies this
      ensures Extends(old(names), names)
      ensures link.Some? ==> Valid() && pending == old(pending) && Known(names.Keys, child) && link.value == LinkOf(names, child)
      ensures link.None? ==> !Resolvable(doc, child)
      decreases doc.nodes.Keys - names.Keys, 0
    {
      match child
      case Always(accepts) =>
        return Some(Fixed(accepts));
      case At(id) =>
        if id !in names {
          Enter(id);
          var shape := ShapeFor(id);
          if shape.None? {
            return None;
          }
          Leave(id, shape.value);
        }
        return Some(Named(names[id]));
    }

    /** The keyword dictionary of a named node, with every subschema replaced by its link. */
    method ShapeFor(id: nat) returns (shape: Option<Shape>)
      requires Valid() && id in doc.nodes
      modifies this
      ensures Extends(old(names), names)
      ensures shape.Some? ==> Valid() && pending == old(pending)
      ensures shape.Some? ==> Ready(doc, names.Keys, doc.nodes[id]) && shape.value == ShapeOf(doc, names, doc.nodes[id])
      ensures shape.None? ==> !Resolvable(doc, At(id))
      decreases doc.nodes.Keys - names.Keys, 5
    {
      var node := doc.nodes[id];
      VisitedAreKnown(doc, id);
      if node.ref == Some(Unresolved) {
        return None;
      }
      var target := Links(RefChildren(node));
      ghost var n0 := names;
      if target.None? {
        FailsInPart(doc, id, RefChildren(node));
        return None;
      }
      if doc.Hides(node) {
        assert RefChildren(node)[0] == node.ref.value.target;
        return Some(Forward(target.value[0]));
      }
      shape := FieldsFor(id, if target.value == [] then [] else [One(target.value[0])]);
    }

    /** The shape of a node whose reference, if any, hides nothing. */
    method FieldsFor(id: nat, reference: seq<Constraint>) returns (shape: Option<Shape>)
      requires Valid() && id in doc.nodes && !doc.Hides(doc.nodes[id]) && doc.nodes[id].ref != Some(Unresolved)
      requires AllKnown(names.Keys, RefChildren(doc.nodes[id])) && reference == ReferenceOf(names, doc.nodes[id])
      modifies this
      ensures Extends(old(names), names)
      ensures shape.Some? ==> Valid() && pending == old(pending)
      ensures shape.Some? ==> Ready(doc, names.Keys, doc.nodes[id]) && shape.value == ShapeOf(doc, names, doc.nodes[id])
      ensures shape.None? ==> !Resolvable(doc, At(id))
      decreases doc.nodes.Keys - names.Keys, 4
    {
      var node := doc.nodes[id];
      ghost var n0 := names;
      VisitedAreKnown(doc, id);
      var properties, patterns, found := MemberLinks(id);
      ghost var n2 := names;
      if !found {
        return None;
      }
      var items, prefix, additional, ok := ValueLinks(id);
      ghost var n4 := names;
      if !ok {
        return None;
      }
      var constraints := Unions(id);
      if constraints.None? {
        return None;
      }
      shape := Some(Shape(node.assertions, properties, patterns, items, prefix,
        additional, reference + constraints.value));
      Assembled(doc, n0, n2, n4, names, node);
    }

    method Links(children: seq<Child>) returns (links: Option<seq<Link>>)
      requires Valid() && AllKnown(doc.nodes.Keys, children)
      modifies this
      ensures Extends(old(names), names)
      ensures links.Some? ==> Valid() && pending == old(pending)
      ensures links.Some? ==> AllKnown(names.Keys, children) && links.value == LinksOf(names, children)
      ensures links.None? ==> Fails(doc, children)
      decreases doc.nodes.Keys - names.Keys, 1
    {
      var found: seq<Link> := [];
      for i := 0 to |children|
        invariant Valid() && pending == old(pending) && Extends(old(names), names)
        invariant AllKnown(names.Keys, children[..i]) && found == LinksOf(names, children[..i])
      {
        ghost var before := names;
        var link := Project(children[i]);
        if link.None? {
          return None;
        }
        LinksAreStable(before, names, children[..i]);
        LinksGrow(names, children, i);
        found := found + [link.value];
      }
      assert children[..|children|] == children;
      return Some(found);
    }

    method Entries(members: seq<Member>) returns (entries: Option<seq<Entry>>)
      requires Valid() && AllKnown(doc.nodes.Keys, ChildrenOf(members))
      modifies this
      ensures Extends(old(names), names)
      ensures entries.Some? ==> Valid() && pending == old(pending)
      ensures entries.Some? ==> AllKnown(names.Keys, ChildrenOf(members)) && entries.value == EntriesOf(names, members)
      ensures entries.None? ==> Fails(doc, ChildrenOf(members))
      decreases doc.nodes.Keys - names.Keys, 2
    {
      var links := Links(ChildrenOf(members));
      if links.None? {
        return None;
      }
      var pairs := seq(|members|, i requires 0 <= i < |members| => Entry(members[i].key, links.value[i]));
      assert pairs == EntriesOf(names, members);
      return Some(pairs);
    }

    /** properties and patternProperties. */
    method MemberLinks(id: nat) returns (properties: seq<Entry>, patterns: seq<Entry>, ok: bool)
      requires Valid() && id in doc.nodes && !doc.Hides(doc.nodes[id])
      modifies this
      ensures Extends(old(names), names)
      ensures ok ==> Valid() && pending == old(pending)
      ensures ok ==> AllKnown(names.Keys, ChildrenOf(doc.nodes[id].properties)) && properties == EntriesOf(names, doc.nodes[id].properties)
      ensures ok ==> AllKnown(names.Keys, ChildrenOf(doc.nodes[id].patternProperties)) && patterns == EntriesOf(names, doc.nodes[id].patternProperties)
      ensures !ok ==> !Resolvable(doc, At(id))
      decreases doc.nodes.Keys - names.Keys, 3
    {
      var node := doc.nodes[id];
      VisitedAreKnown(doc, id);
      var first := Entries(node.properties);
      ghost var n0 := names;
      if first.None? {
        FailsInPart(doc, id, ChildrenOf(node.properties));
        return [], [], false;
      }
      var second := Entries(node.patternProperties);
      if second.None? {
        FailsInPart(doc, id, ChildrenOf(node.patternProperties));
        return [], [], false;
      }
      EntriesAreStable(n0, names, node.properties);
      return first.value, second.value, true;
    }

    /** items and prefixItems; the array form of items becomes prefixItems, and additionalItems becomes items. */
    method ItemLinks(id: nat) returns (items: Option<Link>, prefix: Option<seq<Link>>, ok: bool)
      requires Valid() && id in doc.nodes && !doc.Hides(doc.nodes[id])
      modifies this
      ensures Extends(old(names), names)
      ensures ok ==> Valid() && pending == old(pending)
      ensures ok ==> AllKnown(names.Keys, ItemChildren(doc.nodes[id])) && AllKnown(names.Keys, OptionalSeq(doc.Prefix(doc.nodes[id])))
      ensures ok ==> items == ItemsOf(names, doc.nodes[id]) && prefix == PrefixOf(doc, names, doc.nodes[id])
      ensures !ok ==> !Resolvable(doc, At(id))
      decreases doc.nodes.Keys - names.Keys, 2
    {
      var node := doc.nodes[id];
      VisitedAreKnown(doc, id);
      items, prefix, ok := None, None, false;
      var links := Links(ItemChildren(node));
      ghost var n0 := names;
      if links.None? {
        FailsInPart(doc, id, ItemChildren(node));
        return;
      }
      if node.items.Some? {
        match node.items.value
        case Each(_) =>
          items := Some(links.value[0]);
        case Tuple(children) =>
          prefix := Some(links.value[..|children|]);
          items := Some(links.value[|children|]);
      }
      if doc.Prefix(node).Some? {
        prefix := Links(doc.Prefix(node).value);
        if prefix.None? {
          FailsInPart(doc, id, OptionalSeq(doc.Prefix(node)));
          return;
        }
      }
      ok := true;
      TupleLinks(n0, node);
      LinksAreStable(n0, names, ItemChildren(node));
    }

    /** The item keywords, then additionalProperties. */
    method ValueLinks(id: nat) returns (items: Option<Link>, prefix: Option<seq<Link>>, additional: Option<Link>, ok: bool)
      requires Valid() && id in doc.nodes && !doc.Hides(doc.nodes[id])
      modifies this
      ensures Extends(old(names), names)
      ensures ok ==> Valid() && pending == old(pending)
      ensures ok ==> AllKnown(names.Keys, ItemChildren(doc.nodes[id])) && AllKnown(names.Keys, OptionalSeq(doc.Prefix(doc.nodes[id])))
      ensures ok ==> AllKnown(names.Keys, AdditionalChildren(doc.nodes[id])) && additional == AdditionalOf(names, doc.nodes[id])
      ensures ok ==> items == ItemsOf(names, doc.nodes[id]) && prefix == PrefixOf(doc, names, doc.nodes[id])
      ensures !ok ==> !Resolvable(doc, At(id))
      decreases doc.nodes.Keys - names.Keys, 3
    {
      var node := doc.nodes[id];
      VisitedAreKnown(doc, id);
      additional := None;
      items, prefix, ok := ItemLinks(id);
      ghost var n0 := names;
      if !ok {
        return;
      }
      var links := Links(AdditionalChildren(node));
      if links.None? {
        FailsInPart(doc, id, AdditionalChildren(node));
        ok := false;
        return;
      }
      if links.value != [] {
        additional := Some(links.value[0]);
      }
      ItemsAreStable(doc, n0, names, node);
    }

    /** The constraints that allOf, anyOf and oneOf leave. */
    method Unions(id: nat) returns (constraints: Option<seq<Constraint>>)
      requires Valid() && id in doc.nodes && !doc.Hides(doc.nodes[id])
      modifies this
      ensures Extends(old(names), names)
      ensures constraints.Some? ==> Valid() && pending == old(pending)
      ensures constraints.Some? ==> UnionsKnown(names.Keys, doc.nodes[id]) && constraints.value == UnionsOf(names, doc.nodes[id])
      ensures constraints.None? ==> !Resolvable(doc, At(id))
      decreases doc.nodes.Keys - names.Keys, 2
    {
      var node := doc.nodes[id];
      VisitedAreKnown(doc, id);
      var found: seq<Constraint> := [];
      var all := Links(OptionalSeq(node.allOf));
      ghost var n0 := names;
      if all.None? {
        FailsInPart(doc, id, OptionalSeq(node.allOf));
        return None;
      }
      var any := Links(OptionalSeq(node.anyOf));
      ghost var n1 := names;
      if any.None? {
        FailsInPart(doc, id, OptionalSeq(node.anyOf));
        return None;
      }
      var one := Links(OptionalSeq(node.oneOf));
      if one.None? {
        FailsInPart(doc, id, OptionalSeq(node.oneOf));
        return None;
      }
      LinksAreStable(n0, names, OptionalSeq(node.allOf));
      LinksAreStable(n1, names, OptionalSeq(node.anyOf));
      return Some(
        (if node.allOf.Some? then [All(all.value)] else []) +
        (if node.anyOf.Some? then [Any(any.value)] else []) +
        (if node.oneOf.Some? then [Any(one.value)] else []));
    }

    method Enter(id: nat)
      requires Valid() && id in doc.nodes && id !in names
      modifies this
      ensures Valid() && pending == old(pending) + {id} && names == old(names)[id := |old(names)|]
    {
      var name := |names|;
      var before := names;
      names := names[id := name];
      definitions := definitions[name := Empty];
      pending := pending + {id};
      assert forall other :: other in before ==> before[other] != name;
      forall n | n in definitions ensures exists owner :: owner in names && names[owner] == n {
        if n == name {
          assert names[id] == n;
        } else {
          var owner :| owner in before && before[owner] == n;
          assert names[owner] == n;
        }
      }
      forall other | other in names && other !in pending ensures Finished(doc, names, definitions, other) {
        assert Finished(doc, before, old(definitions), other);
        StillReady(doc, before, names, doc.nodes[other]);
      }
    }

    method Leave(id: nat, shape: Shape)
      requires Valid() && id in pending && Ready(doc, names.Keys, doc.nodes[id]) && shape == ShapeOf(doc, names, doc.nodes[id])
      modifies this
      ensures Valid() && pending == old(pending) - {id} && names == old(names)
    {
      definitions := definitions[names[id] := MarkerOr(shape)];
      pending := pending - {id};
      forall other | other in names && other !in pending ensures Finished(doc, names, definitions, other) {
        if other != id {
          assert Finished(doc, names, old(definitions), other);
        }
      }
    }
  }

  /** The emitted schema defines, for every reachable node and nothing else, the marker or the shape of that node. */
  ghost predicate IsProjection(doc: Document, schema: Public) {
    exists names :: ProjectsBy(doc, schema, names)
  }

  ghost predicate ProjectsBy(doc: Document, schema: Public, names: map<nat, nat>) {
    && Complete(doc, names, schema.definitions) && doc.root in names && schema.root == Named(names[doc.root])
    && (forall name :: name in schema.definitions ==> exists id :: id in names && names[id] == name)
  }

  /** The projection terminates on every document, cyclic references included, and fails only on an unresolved one. */
  method PublicOutputSchema(doc: Document) returns (schema: Option<Public>)
    requires WellFormed(doc)
    ensures schema.Some? <==> Resolvable(doc, At(doc.root))
    ensures schema.Some? ==> IsProjection(doc, schema.value)
  {
    var projection := new Projection(doc);
    var root := projection.Project(At(doc.root));
    if root.None? {
      return None;
    }
    var result := Public(root.value, projection.definitions);
    assert ProjectsBy(doc, result, projection.names);
    forall id | id in projection.names
      ensures AllKnown(projection.names.Keys, Visited(doc, doc.nodes[id])) && doc.nodes[id].ref != Some(Unresolved)
    {
      assert Finished(doc, projection.names, projection.definitions, id);
    }
    assert ClosedNodes(doc, projection.names.Keys) && AllResolved(doc, projection.names.Keys);
    return Some(result);
  }

  /** The links a shape mentions anywhere. */
  ghost predicate Mentions(shape: Shape, link: Link) {
    match shape
    case Forward(only) => link == only
    case Shape(_, properties, patterns, items, prefix, additional, constraints) =>
      || (exists e :: e in properties + patterns && e.link == link)
      || items == Some(link) || (prefix.Some? && link in prefix.value) || additional == Some(link)
      || (exists k :: 0 <= k < |constraints| && InConstraint(constraints[k], link))
  }

  ghost predicate InConstraint(constraint: Constraint, link: Link) {
    match constraint
    case One(only) => link == only
    case All(links) => link in links
    case Any(links) => link in links
  }

  lemma LinksComeFromChildren(names: map<nat, nat>, children: seq<Child>, link: Link)
    requires AllKnown(names.Keys, children) && link in LinksOf(names, children)
    ensures link.Fixed? || link.name in names.Values
  {
    var i :| 0 <= i < |children| && LinksOf(names, children)[i] == link;
    assert Known(names.Keys, children[i]);
  }

  lemma ConstraintLinksAreNamed(doc: Document, names: map<nat, nat>, node: Node, k: nat, link: Link)
    requires AllKnown(names.Keys, RefChildren(node)) && UnionsKnown(names.Keys, node)
    requires k < |ConstraintsOf(names, node)| && InConstraint(ConstraintsOf(names, node)[k], link)
    ensures link.Fixed? || link.name in names.Values
  {
    var constraint := ConstraintsOf(names, node)[k];
    if constraint in ReferenceOf(names, node) {
      assert LinksOf(names, RefChildren(node))[0] == link;
      LinksComeFromChildren(names, RefChildren(node), link);
    } else {
      assert constraint in UnionsOf(names, node);
      var part :| part in {OptionalSeq(node.allOf), OptionalSeq(node.anyOf), OptionalSeq(node.oneOf)} && link in LinksOf(names, part);
      LinksComeFromChildren(names, part, link);
    }
  }

  /** Every reference the emitted schema makes is defined, and no placeholder is left. */
  lemma NoDanglingReferences(doc: Document, schema: Public, name: nat, link: Link)
    requires IsProjection(doc, schema) && name in schema.definitions
    ensures schema.definitions[name].MarkerOr?
    ensures Mentions(schema.definitions[name].shape, link) && link.Named? ==> link.name in schema.definitions
    ensures schema.root.Named? && schema.root.name in schema.definitions
  {
    var names :| ProjectsBy(doc, schema, names);
    var id :| id in names && names[id] == name;
    assert Finished(doc, names, schema.definitions, id) && Finished(doc, names, schema.definitions, doc.root);
    var node := doc.nodes[id];
    if Mentions(schema.definitions[name].shape, link) && link.Named? {
      ShapeLinksAreNamed(doc, names, node, link);
      var target :| target in names && names[target] == link.name;
      assert Finished(doc, names, schema.definitions, target);
    }
  }

  lemma ShapeLinksAreNamed(doc: Document, names: map<nat, nat>, node: Node, link: Link)
    requires Ready(doc, names.Keys, node) && Mentions(ShapeOf(doc, names, node), link)
    ensures link.Fixed? || link.name in names.Values
  {
    if doc.Hides(node) {
      assert LinksOf(names, RefChildren(node))[0] == link;
    } else {
      VisitedIsItsParts(doc, names.Keys, node);
      var constraints := ConstraintsOf(names, node);
      if node.additionalProperties.Some? && link == LinkOf(names, node.additionalProperties.value) {
        assert LinksOf(names, AdditionalChildren(node))[0] == link;
      } else if k :| 0 <= k < |constraints| && InConstraint(constraints[k], link) {
        ConstraintLinksAreNamed(doc, names, node, k, link);
      }
    }
  }

  // ----- The theorems -----------------------------------------------------------------------

  /** A native validator accepts an object under the output schema. */
  ghost predicate NativeAccepts(doc: Document, v: Json) {
    v.Object? && exists fuel :: Check(doc, fuel, At(doc.root), v) == Accept
  }

  /** The kept structure accepts an object. */
  ghost predicate StructureAccepts(doc: Document, v: Json) {
    v.Object? && exists fuel :: Structural(doc, fuel, At(doc.root), v)
  }

  /** A client's validator accepts a result under the public view, which is an object satisfying the root link. */
  ghost predicate PublicAccepts(doc: Document, schema: Public, w: Json) {
    w.Object? && exists fuel :: Satisfies(doc, schema.definitions, fuel, schema.root, w)
  }

  /**
   * Every redaction below the root of a natively valid object is valid under the public view. Before draft-07
   * this needs references without siblings, because the projection then keeps what a validator ignores.
   */
  lemma {:induction false} PublicViewIsSound(doc: Document, schema: Public, v: Json, w: Json)
    requires WellFormed(doc) && NoIgnoredSiblings(doc) && IsProjection(doc, schema)
    requires NativeAccepts(doc, v) && RedactedBelow(v, w)
    ensures PublicAccepts(doc, schema, w)
  {
    var names :| ProjectsBy(doc, schema, names);
    var fuel :| Check(doc, fuel, At(doc.root), v) == Accept;
    AcceptedIsStructural(doc, fuel, At(doc.root), v);
    StructuralIsPublic(doc, names, schema.definitions, fuel, At(doc.root), v, w);
  }

  /** And the view gives away no structure: on values free of the marker it accepts exactly what the structure does. */
  lemma {:induction false} PublicViewIsExact(doc: Document, schema: Public, v: Json)
    requires WellFormed(doc) && IsProjection(doc, schema) && MarkerFree(v)
    ensures PublicAccepts(doc, schema, v) <==> StructureAccepts(doc, v)
  {
    var names :| ProjectsBy(doc, schema, names);
    if PublicAccepts(doc, schema, v) {
      var fuel :| Satisfies(doc, schema.definitions, fuel, schema.root, v);
      PublicIsStructural(doc, names, schema.definitions, fuel, At(doc.root), v);
    }
    if StructureAccepts(doc, v) {
      var fuel :| Structural(doc, fuel, At(doc.root), v);
      RedactionIsReflexive(v);
      StructuralIsPublic(doc, names, schema.definitions, fuel, At(doc.root), v, v);
    }
  }

  /** No keyword of the node is one the projection drops, and it has no exclusive union. */
  ghost predicate KeptWhole(node: Node) {
    node.oneOf.None? && forall v :: node.residue(v)
  }

  ghost predicate NothingDropped(doc: Document) {
    NoIgnoredSiblings(doc) && forall id :: id in doc.nodes ==> KeptWhole(doc.nodes[id])
  }

  lemma {:induction false} StructuralIsAccepted(doc: Document, fuel: nat, child: Child, v: Json)
    requires NothingDropped(doc) && Structural(doc, fuel, child, v)
    ensures Check(doc, fuel, child, v) == Accept
    decreases fuel, 1
  {
    if child.At? {
      var node := doc.nodes[child.id];
      assert KeptWhole(node);
      if doc.Ignores(node) {
        if !doc.Hides(node) {
          assert IsDemand(doc, node, v, Demand(node.ref.value.target, v));
        }
        StructuralIsAccepted(doc, fuel - 1, node.ref.value.target, v);
      } else {
        StructuralNodeIsAccepted(doc, fuel - 1, node, v);
      }
    }
  }

  lemma {:induction false} StructuralNodeIsAccepted(doc: Document, fuel: nat, node: Node, v: Json)
    requires NothingDropped(doc) && KeptWhole(node) && StructuralNode(doc, fuel, node, v)
    ensures Accepts(doc, fuel, node, v)
    decreases fuel, 2
  {
    forall d | IsDemand(doc, node, v, d) ensures Check(doc, fuel, d.child, d.value) == Accept {
      StructuralIsAccepted(doc, fuel, d.child, d.value);
    }
    if node.anyOf.Some? {
      assert node.anyOf.value in Choices(node);
      var i :| 0 <= i < |node.anyOf.value| && Structural(doc, fuel, node.anyOf.value[i], v);
      StructuralIsAccepted(doc, fuel, node.anyOf.value[i], v);
    }
  }

  /** A schema written in kept keywords alone is lost nothing of: client and server accept the same marker-free objects. */
  lemma {:induction false} NothingIsLostOfKeptSchemas(doc: Document, schema: Public, v: Json)
    requires WellFormed(doc) && NothingDropped(doc) && IsProjection(doc, schema) && MarkerFree(v)
    ensures PublicAccepts(doc, schema, v) <==> NativeAccepts(doc, v)
  {
    PublicViewIsExact(doc, schema, v);
    if NativeAccepts(doc, v) {
      var fuel :| Check(doc, fuel, At(doc.root), v) == Accept;
      AcceptedIsStructural(doc, fuel, At(doc.root), v);
    }
    if StructureAccepts(doc, v) {
      var fuel :| Structural(doc, fuel, At(doc.root), v);
      StructuralIsAccepted(doc, fuel, At(doc.root), v);
    }
  }

  lemma {:induction false} RedactionIsReflexive(v: Json)
    ensures RedactedBelow(v, v)
  {
    match v
    case Array(elements) =>
      forall i | 0 <= i < |elements| ensures Redacted(elements[i], elements[i]) {
        RedactionIsReflexive(elements[i]);
      }
    case Object(fields) =>
      forall i | 0 <= i < |fields| ensures Redacted(fields[i].value, fields[i].value) {
        RedactionIsReflexive(fields[i].value);
      }
    case _ =>
  }

  // ----- Where the guarantee stops ----------------------------------------------------------

  /** Draft-06: an object whose root refers to a schema that accepts everything, beside required: [key]. */
  ghost function IgnoredRequirement(key: string): Document {
    var anything := Assertions(None, {}, None, None, None, None, None, None, None, None, None);
    var root := Node(Some(Resolved(Always(true))), anything.(required := {key}), [], [], None, None, None, None, None, None, None, _ => true);
    Document(map[0 := root], 0, Draft06, (p, k) => false)
  }

  /** A validator of that dialect accepts the empty object, and the public view refuses it. */
  lemma IgnoredSiblingsBreakTheView(key: string, schema: Public)
    requires IsProjection(IgnoredRequirement(key), schema)
    ensures WellFormed(IgnoredRequirement(key)) && !NoIgnoredSiblings(IgnoredRequirement(key))
    ensures NativeAccepts(IgnoredRequirement(key), Object([])) && !PublicAccepts(IgnoredRequirement(key), schema, Object([]))
  {
    var doc := IgnoredRequirement(key);
    assert doc.Ignores(doc.nodes[0]);
    assert Check(doc, 1, At(doc.root), Object([])) == Check(doc, 0, Always(true), Object([])) == Accept;
    PublicViewIsExact(doc, schema, Object([]));
    forall fuel: nat ensures !Structural(doc, fuel, At(doc.root), Object([])) {
      assert key in doc.nodes[0].assertions.required && !HasKey([], key);
      assert fuel > 0 ==> !StructuralNode(doc, fuel - 1, doc.nodes[0], Object([]));
    }
  }
}
