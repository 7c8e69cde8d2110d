/** Moving a business schema into the result envelope without changing what its references mean. */
module RefRelocation {
  import opened Prelude

  // ----- Documents --------------------------------------------------------------------------

  /** Object keys and other strings: the keywords that matter, array positions in decimal, and the rest. */
  datatype Key =
    | Ref | DynamicRef | SchemaId
    | Properties | PatternProperties | Defs | Definitions | DependentSchemas | Dependencies
    | AllOf | AnyOf | OneOf | PrefixItems | Items | AdditionalItems | AdditionalProperties
    | UnevaluatedProperties | UnevaluatedItems | Contains | Not | If | Then | Else | PropertyNames | ContentSchema
    | Type | Required | MinLength | Minimum
    | ObjectType | StringType | NullType | IntegerType | InputCount | OutputCount | TotalCount
    | BusinessResult | ResultKey | ErrorKey | ErrorInfo | TokenUsage
    | Position(n: nat) | Name(text: string)

  /** Pointer is a string that is "#" or starts with "#/", split into its reference tokens. */
  datatype Json =
    | Null | Bool(flag: bool) | Number(value: real) | Text(text: Key) | Pointer(tokens: seq<Key>)
    | Array(elements: seq<Json>) | Object(fields: seq<Field>)

  datatype Field = Field(key: Key, value: Json)

  function Lookup(fields: seq<Field>, key: Key): (found: Option<Json>)
    ensures found.Some? <==> exists j :: 0 <= j < |fields| && fields[j].key == key
  {
    if fields == [] then None
    else if fields[0].key == key then Some(fields[0].value)
    else
      assert forall j :: 0 <= j < |fields| - 1 ==> fields[1..][j] == fields[j + 1];
      Lookup(fields[1..], key)
  }

  /** One reference token, as section 4 of RFC 6901 evaluates it. */
  function Child(v: Json, token: Key): Option<Json> {
    match v
    case Object(fields) => Lookup(fields, token)
    case Array(elements) => if token.Position? && token.n < |elements| then Some(elements[token.n]) else None
    case _ => None
  }

  function Resolve(v: Json, tokens: seq<Key>): Option<Json>
    decreases |tokens|
  {
    if tokens == [] then Some(v)
    else
      var child := Child(v, tokens[0]);
      if child.None? then None else Resolve(child.value, tokens[1..])
  }

  lemma {:induction false} ResolveAppend(v: Json, left: seq<Key>, right: seq<Key>)
    ensures Resolve(v, left + right) == match Resolve(v, left) case None => None case Some(w) => Resolve(w, right)
    decreases |left|
  {
    if left == [] {
      assert left + right == right;
    } else {
      assert (left + right)[1..] == left[1..] + right;
      if Child(v, left[0]).Some? {
        ResolveAppend(Child(v, left[0]).value, left[1..], right);
      }
    }
  }

  // ----- Relocation -------------------------------------------------------------------------

  predicate IsReference(key: Key) {
    key == Ref || key == DynamicRef
  }

  /** Keywords whose value holds a schema per name. */
  predicate HoldsSchemas(key: Key) {
    match key
    case Properties | PatternProperties | Defs | Definitions | DependentSchemas | Dependencies => true
    case _ => false
  }

  /** Keywords whose value is a schema or a list of schemas. */
  predicate IsSchemaKeyword(key: Key) {
    match key
    case AllOf | AnyOf | OneOf | PrefixItems | Items | AdditionalItems | AdditionalProperties | UnevaluatedProperties
      | UnevaluatedItems | Contains | Not | If | Then | Else | PropertyNames | ContentSchema => true
    case _ => false
  }

  predicate Truthy(v: Json) {
    match v
    case Null => false
    case Bool(flag) => flag
    case Number(value) => value != 0.0
    case Text(text) => text != Name("")
    case Pointer(_) => true
    case Array(elements) => elements != []
    case Object(fields) => fields != []
  }

  /** A nested resource keeps its own references. */
  predicate HasOwnId(fields: seq<Field>) {
    Lookup(fields, SchemaId).Some? && Truthy(Lookup(fields, SchemaId).value)
  }

  /** Where the business schema lives in the envelope. */
  const HOME := [Defs, BusinessResult, AnyOf, Position(0)]

  /** What relocation does to a value depends on how it was reached: as a schema, as a table of schemas, as a reference, or otherwise. */
  datatype Mode = Schema | Table | Reference | Literal

  /** How the child of a value reached in some mode is reached. */
  function ChildMode(mode: Mode, v: Json, token: Key): Mode {
    match mode
    case Schema =>
      (match v
       case Array(_) => Schema
       case Object(fields) =>
         if HasOwnId(fields) then Literal
         else if IsReference(token) then Reference
         else if HoldsSchemas(token) then (if Child(v, token).Some? && Child(v, token).value.Object? then Table else Literal)
         else if IsSchemaKeyword(token) then Schema
         else Literal
       case _ => Literal)
    case Table => if v.Object? && Child(v, token).Some? && Child(v, token).value.Object? then Schema else Literal
    case _ => Literal
  }

  function ModeAt(mode: Mode, v: Json, tokens: seq<Key>): Mode
    decreases |tokens|
  {
    if tokens == [] || Child(v, tokens[0]).None? then mode
    else ModeAt(ChildMode(mode, v, tokens[0]), Child(v, tokens[0]).value, tokens[1..])
  }

  /** _relocate_schema_refs, by mode. */
  function Moved(mode: Mode, v: Json): Json
    decreases v, 0
  {
    match mode
    case Schema =>
      (match v
       case Array(elements) => Array(MovedEach(elements))
       case Object(fields) => if HasOwnId(fields) then v else Object(MovedFields(fields))
       case _ => v)
    case Table => if v.Object? then Object(MovedTable(v.fields)) else v
    case Reference => if v.Pointer? then Pointer(HOME + v.tokens) else v
    case Literal => v
  }

  function Relocate(v: Json): Json {
    Moved(Schema, v)
  }

  function MovedEach(elements: seq<Json>): (moved: seq<Json>)
    ensures |moved| == |elements|
    ensures forall i :: 0 <= i < |elements| ==> moved[i] == Moved(Schema, elements[i])
    decreases elements
  {
    if elements == [] then [] else [Moved(Schema, elements[0])] + MovedEach(elements[1..])
  }

  /** The mode of a field of a schema object without an identifier of its own. */
  function FieldMode(f: Field): Mode {
    if IsReference(f.key) then Reference
    else if HoldsSchemas(f.key) then (if f.value.Object? then Table else Literal)
    else if IsSchemaKeyword(f.key) then Schema
    else Literal
  }

  function MovedField(mode: Mode, f: Field): Field
    decreases f, 1
  {
    Field(f.key, Moved(mode, f.value))
  }

  function MovedFields(fields: seq<Field>): (moved: seq<Field>)
    ensures |moved| == |fields|
    ensures forall i :: 0 <= i < |fields| ==> moved[i] == MovedField(FieldMode(fields[i]), fields[i])
    decreases fields
  {
    if fields == [] then [] else [MovedField(FieldMode(fields[0]), fields[0])] + MovedFields(fields[1..])
  }

  function EntryMode(f: Field): Mode {
    if f.value.Object? then Schema else Literal
  }

  function MovedTable(fields: seq<Field>): (moved: seq<Field>)
    ensures |moved| == |fields|
    ensures forall i :: 0 <= i < |fields| ==> moved[i] == MovedField(EntryMode(fields[i]), fields[i])
    decreases fields
  {
    if fields == [] then [] else [MovedField(EntryMode(fields[0]), fields[0])] + MovedTable(fields[1..])
  }

  // ----- Relocation commutes with resolution ----------------------------------------------------

  lemma {:induction false} LookupField(fields: seq<Field>, key: Key) returns (i: nat)
    requires Lookup(fields, key).Some?
    ensures i < |fields| && fields[i].key == key && fields[i].value == Lookup(fields, key).value
    ensures forall k :: 0 <= k < i ==> fields[k].key != key
  {
    if fields[0].key == key {
      i := 0;
    } else {
      var j := LookupField(fields[1..], key);
      i := j + 1;
      forall k | 0 <= k < i ensures fields[k].key != key {
        assert k > 0 ==> fields[k] == fields[1..][k - 1];
      }
    }
  }

  lemma {:induction false} LookupFirst(fields: seq<Field>, key: Key, i: nat)
    requires i < |fields| && fields[i].key == key && forall k :: 0 <= k < i ==> fields[k].key != key
    ensures Lookup(fields, key) == Some(fields[i].value)
  {
    if i > 0 {
      assert fields[0].key != key && fields[1..][i - 1] == fields[i];
      forall k | 0 <= k < i - 1 ensures fields[1..][k].key != key {
        assert fields[1..][k] == fields[k + 1];
      }
      LookupFirst(fields[1..], key, i - 1);
    }
  }

  /** Looking up a moved field finds the field, moved. */
  lemma {:induction false} LookupMoved(fields: seq<Field>, moved: seq<Field>, key: Key, modes: Field -> Mode)
    requires |moved| == |fields|
    requires forall i :: 0 <= i < |fields| ==> moved[i] == MovedField(modes(fields[i]), fields[i])
    ensures Lookup(moved, key).Some? <==> Lookup(fields, key).Some?
    ensures Lookup(fields, key).Some? ==>
      Lookup(moved, key).value == Moved(modes(Field(key, Lookup(fields, key).value)), Lookup(fields, key).value)
  {
    if Lookup(fields, key).Some? {
      var i := LookupField(fields, key);
      LookupFirst(moved, key, i);
    } else {
      forall i | 0 <= i < |moved| ensures moved[i].key != key {
        assert fields[i].key != key;
      }
    }
  }

  lemma {:induction false} ChildMoved(mode: Mode, v: Json, token: Key)
    ensures Child(Moved(mode, v), token) == match Child(v, token) case None => None
                                              case Some(w) => Some(Moved(ChildMode(mode, v, token), w))
  {
    if v.Object? {
      if mode == Schema && !HasOwnId(v.fields) {
        FieldMoved(v.fields, token);
      } else if mode == Table {
        EntryMoved(v.fields, token);
      }
    }
  }

  lemma {:induction false} EntryMoved(fields: seq<Field>, token: Key)
    ensures Lookup(MovedTable(fields), token) == match Lookup(fields, token) case None => None
                                                   case Some(w) => Some(Moved(ChildMode(Table, Object(fields), token), w))
  {
    LookupMoved(fields, MovedTable(fields), token, EntryMode);
    if Lookup(fields, token).Some? {
      assert EntryMode(Field(token, Lookup(fields, token).value)) == ChildMode(Table, Object(fields), token);
    }
  }

  lemma {:induction false} FieldMoved(fields: seq<Field>, token: Key)
    requires !HasOwnId(fields)
    ensures Lookup(MovedFields(fields), token) == match Lookup(fields, token) case None => None
                                                    case Some(w) => Some(Moved(ChildMode(Schema, Object(fields), token), w))
  {
    LookupMoved(fields, MovedFields(fields), token, FieldMode);
    if Lookup(fields, token).Some? {
      ModesAgree(fields, token, Lookup(fields, token).value);
    }
  }

  /** A field is reached in the mode it is moved in. */
  lemma {:induction false} ModesAgree(fields: seq<Field>, token: Key, w: Json)
    requires !HasOwnId(fields) && Lookup(fields, token) == Some(w)
    ensures ChildMode(Schema, Object(fields), token) == FieldMode(Field(token, w))
  {
    assert Child(Object(fields), token) == Some(w);
  }

  /** What a pointer finds in the moved document is what it finds in the original, moved as its position asks. */
  lemma {:induction false} ResolutionCommutes(mode: Mode, v: Json, tokens: seq<Key>)
    ensures Resolve(Moved(mode, v), tokens) == match Resolve(v, tokens) case None => None
                                                 case Some(w) => Some(Moved(ModeAt(mode, v, tokens), w))
    decreases |tokens|
  {
    if tokens != [] {
      ChildMoved(mode, v, tokens[0]);
      if Child(v, tokens[0]).Some? {
        ResolutionCommutes(ChildMode(mode, v, tokens[0]), Child(v, tokens[0]).value, tokens[1..]);
      }
    }
  }

  lemma {:induction false} ModeAppend(mode: Mode, v: Json, left: seq<Key>, token: Key)
    requires Resolve(v, left).Some? && Child(Resolve(v, left).value, token).Some?
    ensures Resolve(v, left + [token]) == Child(Resolve(v, left).value, token)
    ensures ModeAt(mode, v, left + [token]) == ChildMode(ModeAt(mode, v, left), Resolve(v, left).value, token)
    decreases |left|
  {
    var path := left + [token];
    if left == [] {
      assert path[0] == token && path[1..] == [];
    } else {
      assert path[1..] == left[1..] + [token];
      ModeAppend(ChildMode(mode, v, left[0]), Child(v, left[0]).value, left[1..], token);
    }
  }

  // ----- Validation -------------------------------------------------------------------------

  /** A part of a value that a schema may evaluate. */
  datatype Part = Member(key: Key) | Element(index: nat)

  /** Everything about validation that relocation cannot touch. */
  datatype Engine = Engine(
    asserts: (Key, Json, Json) -> bool,
    matches: (Key, Key) -> bool,
    remote: (Json, Json) -> bool,
    remoteParts: (Json, Json, Part) -> bool)

  ghost predicate NamesKey(e: Engine, fields: seq<Field>, key: Key) {
    exists m :: 0 <= m < |fields| && NamesAt(e, fields[m], key)
  }

  ghost predicate NamesAt(e: Engine, f: Field, key: Key) {
    (f.key.Properties? || f.key.PatternProperties?) && TableNames(e, f.key, f.value, key)
  }

  ghost predicate TableNames(e: Engine, keyword: Key, table: Json, key: Key) {
    table.Object? && exists j :: 0 <= j < |table.fields| && NamedBy(e, keyword, table.fields[j].key, key)
  }

  predicate NamedBy(e: Engine, keyword: Key, name: Key, key: Key) {
    if keyword == Properties then name == key else e.matches(name, key)
  }

  ghost predicate InPrefix(fields: seq<Field>, k: nat) {
    exists m :: 0 <= m < |fields| && PrefixAt(fields[m], k)
  }

  predicate PrefixAt(f: Field, k: nat) {
    f.key == PrefixItems && f.value.Array? && k < |f.value.elements|
  }

  /** Validation of a value in a document, following at most fuel references. */
  ghost predicate Valid(e: Engine, doc: Json, fuel: nat, s: Json, v: Json)
    decreases fuel, 1, s, 5
  {
    match s
    case Bool(flag) => flag
    case Object(fields) => forall i :: 0 <= i < |fields| ==> Keyword(e, doc, fuel, s, i, v)
    case _ => false
  }

  /** The i-th keyword of a schema object. */
  ghost predicate Keyword(e: Engine, doc: Json, fuel: nat, s: Json, i: nat, v: Json)
    requires s.Object? && i < |s.fields|
    decreases fuel, 1, s, 4
  {
    var f := s.fields[i];
    match f.key
    case Ref => Refers(e, doc, fuel, f.value, v)
    case DynamicRef => Refers(e, doc, fuel, f.value, v)
    case AllOf => EachHolds(e, doc, fuel, f.value, v)
    case AnyOf => SomeHolds(e, doc, fuel, f.value, v)
    case OneOf => OneHolds(e, doc, fuel, f.value, v)
    case Not => !Valid(e, doc, fuel, f.value, v)
    case Then => IfIs(e, doc, fuel, s, v, true) ==> Valid(e, doc, fuel, f.value, v)
    case Else => IfIs(e, doc, fuel, s, v, false) ==> Valid(e, doc, fuel, f.value, v)
    case Properties => TableHolds(e, doc, fuel, Properties, f.value, v)
    case PatternProperties => TableHolds(e, doc, fuel, PatternProperties, f.value, v)
    case AdditionalProperties => OthersHold(e, doc, fuel, s.fields, f.value, v)
    case PrefixItems => PrefixHolds(e, doc, fuel, f.value, v)
    case Items => RestHolds(e, doc, fuel, s.fields, f.value, v)
    case Contains => SomeItemHolds(e, doc, fuel, f.value, v)
    case PropertyNames => NamesHold(e, doc, fuel, f.value, v)
    case DependentSchemas => DependentsHold(e, doc, fuel, f.value, v)
    case UnevaluatedProperties => LeftMembersHold(e, doc, fuel, s, f.value, v)
    case UnevaluatedItems => LeftElementsHold(e, doc, fuel, s, f.value, v)
    case Required => HasAll(f.value, v)
    case _ => HoldsSchemas(f.key) || IsSchemaKeyword(f.key) || e.asserts(f.key, f.value, v)
  }

  predicate HasAll(names: Json, v: Json) {
    names.Array? && (v.Object? ==> forall j :: 0 <= j < |names.elements| ==>
      names.elements[j].Text? && Lookup(v.fields, names.elements[j].text).Some?)
  }

  ghost predicate Refers(e: Engine, doc: Json, fuel: nat, reference: Json, v: Json)
    decreases fuel, 0
  {
    if !reference.Pointer? then e.remote(reference, v)
    else fuel > 0 && Resolve(doc, reference.tokens).Some? && Valid(e, doc, fuel - 1, Resolve(doc, reference.tokens).value, v)
  }

  ghost predicate EachHolds(e: Engine, doc: Json, fuel: nat, list: Json, v: Json)
    decreases fuel, 1, list, 8
  {
    list.Array? && forall j :: 0 <= j < |list.elements| ==> Valid(e, doc, fuel, list.elements[j], v)
  }

  ghost predicate SomeHolds(e: Engine, doc: Json, fuel: nat, list: Json, v: Json)
    decreases fuel, 1, list, 8
  {
    list.Array? && exists j :: 0 <= j < |list.elements| && Valid(e, doc, fuel, list.elements[j], v)
  }

  ghost predicate OneHolds(e: Engine, doc: Json, fuel: nat, list: Json, v: Json)
    decreases fuel, 1, list, 8
  {
    list.Array? && exists j :: 0 <= j < |list.elements| && OnlyBranch(e, doc, fuel, list, v, j)
  }

  ghost predicate OnlyBranch(e: Engine, doc: Json, fuel: nat, list: Json, v: Json, j: nat)
    requires list.Array? && j < |list.elements|
    decreases fuel, 1, list, 7
  {
    Valid(e, doc, fuel, list.elements[j], v)
    && forall k :: 0 <= k < |list.elements| && k != j ==> !Valid(e, doc, fuel, list.elements[k], v)
  }

  /** Some "if" of the schema comes out that way. */
  ghost predicate IfIs(e: Engine, doc: Json, fuel: nat, s: Json, v: Json, outcome: bool)
    requires s.Object?
    decreases fuel, 1, s, 0
  {
    exists k :: 0 <= k < |s.fields| && s.fields[k].key == If && Valid(e, doc, fuel, s.fields[k].value, v) == outcome
  }

  ghost predicate TableHolds(e: Engine, doc: Json, fuel: nat, keyword: Key, table: Json, v: Json)
    decreases fuel, 1, table, 8
  {
    table.Object? && (v.Object? ==> forall j, k :: 0 <= j < |table.fields| && 0 <= k < |v.fields| ==>
      EntryHolds(e, doc, fuel, keyword, table, j, v.fields[k]))
  }

  ghost predicate EntryHolds(e: Engine, doc: Json, fuel: nat, keyword: Key, table: Json, j: nat, g: Field)
    requires table.Object? && j < |table.fields|
    decreases fuel, 1, table, 7
  {
    NamedBy(e, keyword, table.fields[j].key, g.key) ==> Valid(e, doc, fuel, table.fields[j].value, g.value)
  }

  ghost predicate OthersHold(e: Engine, doc: Json, fuel: nat, fields: seq<Field>, schema: Json, v: Json)
    decreases fuel, 1, schema, 8
  {
    v.Object? ==> forall k :: 0 <= k < |v.fields| && !NamesKey(e, fields, v.fields[k].key) ==> Valid(e, doc, fuel, schema, v.fields[k].value)
  }

  ghost predicate PrefixHolds(e: Engine, doc: Json, fuel: nat, list: Json, v: Json)
    decreases fuel, 1, list, 8
  {
    list.Array? && (v.Array? ==> forall j :: 0 <= j < |list.elements| && j < |v.elements| ==>
      Valid(e, doc, fuel, list.elements[j], v.elements[j]))
  }

  ghost predicate RestHolds(e: Engine, doc: Json, fuel: nat, fields: seq<Field>, schema: Json, v: Json)
    decreases fuel, 1, schema, 8
  {
    v.Array? ==> forall k :: 0 <= k < |v.elements| && !InPrefix(fields, k) ==> Valid(e, doc, fuel, schema, v.elements[k])
  }

  ghost predicate SomeItemHolds(e: Engine, doc: Json, fuel: nat, schema: Json, v: Json)
    decreases fuel, 1, schema, 8
  {
    v.Array? ==> exists k :: 0 <= k < |v.elements| && Valid(e, doc, fuel, schema, v.elements[k])
  }

  ghost predicate NamesHold(e: Engine, doc: Json, fuel: nat, schema: Json, v: Json)
    decreases fuel, 1, schema, 8
  {
    v.Object? ==> forall k :: 0 <= k < |v.fields| ==> Valid(e, doc, fuel, schema, Text(v.fields[k].key))
  }

  ghost predicate DependentsHold(e: Engine, doc: Json, fuel: nat, table: Json, v: Json)
    decreases fuel, 1, table, 8
  {
    table.Object? && (v.Object? ==> forall j, k :: 0 <= j < |table.fields| && 0 <= k < |v.fields| ==>
      table.fields[j].key == v.fields[k].key ==> Valid(e, doc, fuel, table.fields[j].value, v))
  }

  /** The members no other keyword of the schema has evaluated satisfy the subschema; and so for elements. */
  ghost predicate LeftMembersHold(e: Engine, doc: Json, fuel: nat, s: Json, schema: Json, v: Json)
    requires s.Object? && schema < s
    decreases fuel, 1, s, 3
  {
    v.Object? ==> forall k :: 0 <= k < |v.fields| && !EvaluatedBeside(e, doc, fuel, s, v, Member(v.fields[k].key)) ==>
      Valid(e, doc, fuel, schema, v.fields[k].value)
  }

  ghost predicate LeftElementsHold(e: Engine, doc: Json, fuel: nat, s: Json, schema: Json, v: Json)
    requires s.Object? && schema < s
    decreases fuel, 1, s, 3
  {
    v.Array? ==> forall k :: 0 <= k < |v.elements| && !EvaluatedBeside(e, doc, fuel, s, v, Element(k)) ==>
      Valid(e, doc, fuel, schema, v.elements[k])
  }

  // ----- What a schema evaluates ----------------------------------------------------------------

  predicate IsUnevaluated(key: Key) {
    key == UnevaluatedProperties || key == UnevaluatedItems
  }

  ghost predicate EvaluatedBeside(e: Engine, doc: Json, fuel: nat, s: Json, v: Json, part: Part)
    requires s.Object?
    decreases fuel, 1, s, 2
  {
    exists i :: 0 <= i < |s.fields| && !IsUnevaluated(s.fields[i].key) && Evaluates(e, doc, fuel, s, i, v, part)
  }

  /** A schema that accepts the value, and some keyword of it evaluates the part. */
  ghost predicate Contributes(e: Engine, doc: Json, fuel: nat, s: Json, v: Json, part: Part)
    decreases fuel, 1, s, 6
  {
    s.Object? && Valid(e, doc, fuel, s, v) && exists i :: 0 <= i < |s.fields| && Evaluates(e, doc, fuel, s, i, v, part)
  }

  /** The i-th keyword of an accepting schema evaluates the part, itself or through a subschema. */
  ghost predicate Evaluates(e: Engine, doc: Json, fuel: nat, s: Json, i: nat, v: Json, part: Part)
    requires s.Object? && i < |s.fields|
    decreases fuel, 1, s, 1
  {
    var f := s.fields[i];
    match f.key
    case Ref => TargetContributes(e, doc, fuel, f.value, v, part)
    case DynamicRef => TargetContributes(e, doc, fuel, f.value, v, part)
    case AllOf => SomeContributes(e, doc, fuel, f.value, v, part)
    case AnyOf => SomeContributes(e, doc, fuel, f.value, v, part)
    case OneOf => SomeContributes(e, doc, fuel, f.value, v, part)
    case If => Contributes(e, doc, fuel, f.value, v, part)
    case Then => IfIs(e, doc, fuel, s, v, true) && Contributes(e, doc, fuel, f.value, v, part)
    case Else => IfIs(e, doc, fuel, s, v, false) && Contributes(e, doc, fuel, f.value, v, part)
    case DependentSchemas => DependentContributes(e, doc, fuel, f.value, v, part)
    case Properties => part.Member? && TableNames(e, Properties, f.value, part.key)
    case PatternProperties => part.Member? && TableNames(e, PatternProperties, f.value, part.key)
    case AdditionalProperties => part.Member? && !NamesKey(e, s.fields, part.key)
    case UnevaluatedProperties => part.Member?
    case PrefixItems => part.Element? && PrefixAt(f, part.index)
    case Items => part.Element? && !InPrefix(s.fields, part.index)
    case Contains => part.Element? && v.Array? && part.index < |v.elements| && Valid(e, doc, fuel, f.value, v.elements[part.index])
    case UnevaluatedItems => part.Element?
    case _ => false
  }

  ghost predicate TargetContributes(e: Engine, doc: Json, fuel: nat, reference: Json, v: Json, part: Part)
    decreases fuel, 0
  {
    if !reference.Pointer? then e.remoteParts(reference, v, part)
    else fuel > 0 && Resolve(doc, reference.tokens).Some? && Contributes(e, doc, fuel - 1, Resolve(doc, reference.tokens).value, v, part)
  }

  ghost predicate SomeContributes(e: Engine, doc: Json, fuel: nat, list: Json, v: Json, part: Part)
    decreases fuel, 1, list, 8
  {
    list.Array? && exists j :: 0 <= j < |list.elements| && Contributes(e, doc, fuel, list.elements[j], v, part)
  }

  ghost predicate DependentContributes(e: Engine, doc: Json, fuel: nat, table: Json, v: Json, part: Part)
    decreases fuel, 1, table, 8
  {
    && table.Object? && v.Object?
    && (exists j :: 0 <= j < |table.fields|
          && Lookup(v.fields, table.fields[j].key).Some? && Contributes(e, doc, fuel, table.fields[j].value, v, part))
  }

  // ----- Relocation preserves validity ----------------------------------------------------------

  /** n stands at the path as a schema of the business document. */
  ghost predicate InPlace(business: Json, path: seq<Key>, n: Json) {
    Resolve(business, path) == Some(n) && ModeAt(Schema, business, path) == Schema
  }

  /** Keys are distinct, nothing has an identifier of its own, and local references lead to schemas. */
  ghost predicate PortableNode(business: Json, n: Json)
    requires n.Object?
  {
    && (forall i, j {:trigger KeysDiffer(n.fields, i, j)} :: 0 <= i < j < |n.fields| ==> KeysDiffer(n.fields, i, j))
    && !HasOwnId(n.fields)
    && (forall i :: 0 <= i < |n.fields| ==> PortableField(business, n.fields[i]))
  }

  predicate KeysDiffer(fields: seq<Field>, i: int, j: int)
    requires 0 <= i < j < |fields|
  {
    fields[i].key != fields[j].key
  }

  ghost predicate PortableField(business: Json, f: Field) {
    && (IsReference(f.key) && f.value.Pointer? && Resolve(business, f.value.tokens).Some? ==>
          ModeAt(Schema, business, f.value.tokens) == Schema)
    && (HoldsSchemas(f.key) && f.value.Object? ==>
          forall i, j {:trigger KeysDiffer(f.value.fields, i, j)} :: 0 <= i < j < |f.value.fields| ==> KeysDiffer(f.value.fields, i, j))
  }

  ghost predicate PortableAt(business: Json, path: seq<Key>, n: Json) {
    InPlace(business, path, n) && n.Object? ==> PortableNode(business, n)
  }

  ghost predicate Portable(business: Json) {
    forall path, n {:trigger PortableAt(business, path, n)} :: PortableAt(business, path, n)
  }

  lemma {:induction false} LookupOnly(fields: seq<Field>, i: nat)
    requires i < |fields| && forall a, b {:trigger KeysDiffer(fields, a, b)} :: 0 <= a < b < |fields| ==> KeysDiffer(fields, a, b)
    ensures Lookup(fields, fields[i].key) == Some(fields[i].value)
  {
    forall k | 0 <= k < i ensures fields[k].key != fields[i].key {
      assert KeysDiffer(fields, k, i);
    }
    LookupFirst(fields, fields[i].key, i);
  }

  /** The value of a schema keyword stands in place; so do the schemas in a list, ... */
  lemma {:induction false} ValueInPlace(business: Json, path: seq<Key>, n: Json, i: nat)
    requires Portable(business) && InPlace(business, path, n) && n.Object? && i < |n.fields|
    ensures Resolve(business, path + [n.fields[i].key]) == Some(n.fields[i].value)
    ensures ModeAt(Schema, business, path + [n.fields[i].key]) == FieldMode(n.fields[i])
  {
    assert PortableAt(business, path, n);
    LookupOnly(n.fields, i);
    ModeAppend(Schema, business, path, n.fields[i].key);
  }

  lemma ElementInPlace(business: Json, path: seq<Key>, n: Json, i: nat, j: nat)
    requires Portable(business) && InPlace(business, path, n) && n.Object? && i < |n.fields|
    requires IsSchemaKeyword(n.fields[i].key) && n.fields[i].value.Array? && j < |n.fields[i].value.elements|
    ensures InPlace(business, path + [n.fields[i].key] + [Position(j)], n.fields[i].value.elements[j])
  {
    ValueInPlace(business, path, n, i);
    ModeAppend(Schema, business, path + [n.fields[i].key], Position(j));
  }

  /** ... and the schemas in a table. */
  lemma EntryInPlace(business: Json, path: seq<Key>, n: Json, i: nat, j: nat)
    requires Portable(business) && InPlace(business, path, n) && n.Object? && i < |n.fields|
    requires HoldsSchemas(n.fields[i].key) && n.fields[i].value.Object? && j < |n.fields[i].value.fields|
    requires n.fields[i].value.fields[j].value.Object?
    ensures InPlace(business, path + [n.fields[i].key] + [n.fields[i].value.fields[j].key], n.fields[i].value.fields[j].value)
  {
    assert PortableAt(business, path, n) && PortableField(business, n.fields[i]);
    ValueInPlace(business, path, n, i);
    LookupOnly(n.fields[i].value.fields, j);
    ModeAppend(Schema, business, path + [n.fields[i].key], n.fields[i].value.fields[j].key);
  }

  /** The envelope resolves relocated pointers in the relocated business schema. */
  ghost predicate Houses(envelope: Json, business: Json) {
    Resolve(envelope, HOME) == Some(Relocate(business))
  }

  /** Two documents at one number of references to follow. */
  datatype Setting = Setting(e: Engine, before: Json, after: Json, fuel: nat)

  /** Two schemas mean the same, each in its document. */
  ghost predicate Same(t: Setting, s: Json, moved: Json, v: Json) {
    && Valid(t.e, t.after, t.fuel, moved, v) == Valid(t.e, t.before, t.fuel, s, v)
    && forall part :: Contributes(t.e, t.after, t.fuel, moved, v, part) == Contributes(t.e, t.before, t.fuel, s, v, part)
  }

  ghost predicate SameElements(t: Setting, list: Json, moved: Json, v: Json) {
    && list.Array? == moved.Array?
    && (list.Array? ==> |list.elements| == |moved.elements|)
    && (list.Array? ==> forall j :: 0 <= j < |list.elements| ==> Same(t, list.elements[j], moved.elements[j], v))
  }

  ghost predicate SameEntries(t: Setting, table: Json, moved: Json, v: Json) {
    && table.Object? == moved.Object?
    && (table.Object? ==> |table.fields| == |moved.fields|)
    && (table.Object? ==> forall j :: 0 <= j < |table.fields| ==>
          moved.fields[j].key == table.fields[j].key && Same(t, table.fields[j].value, moved.fields[j].value, v))
  }

  lemma {:induction false} SameLists(t: Setting, list: Json, moved: Json, v: Json)
    requires SameElements(t, list, moved, v)
    ensures EachHolds(t.e, t.after, t.fuel, moved, v) == EachHolds(t.e, t.before, t.fuel, list, v)
    ensures SomeHolds(t.e, t.after, t.fuel, moved, v) == SomeHolds(t.e, t.before, t.fuel, list, v)
  {
    if list.Array? {
      forall j | 0 <= j < |list.elements|
        ensures Valid(t.e, t.after, t.fuel, moved.elements[j], v) == Valid(t.e, t.before, t.fuel, list.elements[j], v)
      {
        assert Same(t, list.elements[j], moved.elements[j], v);
      }
    }
  }

  lemma {:induction false} SameChoice(t: Setting, list: Json, moved: Json, v: Json)
    requires SameElements(t, list, moved, v)
    ensures OneHolds(t.e, t.after, t.fuel, moved, v) == OneHolds(t.e, t.before, t.fuel, list, v)
  {
    if list.Array? {
      forall j | 0 <= j < |list.elements|
        ensures Valid(t.e, t.after, t.fuel, moved.elements[j], v) == Valid(t.e, t.before, t.fuel, list.elements[j], v)
      {
        assert Same(t, list.elements[j], moved.elements[j], v);
      }
      forall j | 0 <= j < |list.elements|
        ensures OnlyBranch(t.e, t.after, t.fuel, moved, v, j) == OnlyBranch(t.e, t.before, t.fuel, list, v, j)
      {
      }
    }
  }

  lemma {:induction false} SameContributions(t: Setting, list: Json, moved: Json, v: Json, part: Part)
    requires SameElements(t, list, moved, v)
    ensures SomeContributes(t.e, t.after, t.fuel, moved, v, part) == SomeContributes(t.e, t.before, t.fuel, list, v, part)
  {
    if list.Array? {
      forall j | 0 <= j < |list.elements|
        ensures Contributes(t.e, t.after, t.fuel, moved.elements[j], v, part) == Contributes(t.e, t.before, t.fuel, list.elements[j], v, part)
      {
        assert Same(t, list.elements[j], moved.elements[j], v);
      }
    }
  }

  lemma {:induction false} SamePrefix(t: Setting, list: Json, moved: Json, v: Json)
    requires v.Array? ==> forall w :: w in v.elements ==> SameElements(t, list, moved, w)
    requires list.Array? == moved.Array? && (list.Array? ==> |list.elements| == |moved.elements|)
    ensures PrefixHolds(t.e, t.after, t.fuel, moved, v) == PrefixHolds(t.e, t.before, t.fuel, list, v)
  {
    if list.Array? && v.Array? {
      forall j | 0 <= j < |list.elements| && j < |v.elements|
        ensures Valid(t.e, t.after, t.fuel, moved.elements[j], v.elements[j]) == Valid(t.e, t.before, t.fuel, list.elements[j], v.elements[j])
      {
        assert v.elements[j] in v.elements;
        assert Same(t, list.elements[j], moved.elements[j], v.elements[j]);
      }
    }
  }

  lemma {:induction false} SameTable(t: Setting, keyword: Key, table: Json, moved: Json, v: Json)
    requires v.Object? ==> forall f :: f in v.fields ==> SameEntries(t, table, moved, f.value)
    requires table.Object? == moved.Object? && (table.Object? ==> |table.fields| == |moved.fields|)
    ensures TableHolds(t.e, t.after, t.fuel, keyword, moved, v) == TableHolds(t.e, t.before, t.fuel, keyword, table, v)
  {
    if table.Object? && v.Object? {
      forall j, k | 0 <= j < |table.fields| && 0 <= k < |v.fields|
        ensures EntryHolds(t.e, t.after, t.fuel, keyword, moved, j, v.fields[k]) == EntryHolds(t.e, t.before, t.fuel, keyword, table, j, v.fields[k])
      {
        var g := v.fields[k];
        SameEntry(t, keyword, table, moved, j, g);
      }
    }
  }

  lemma {:induction false} SameEntry(t: Setting, keyword: Key, table: Json, moved: Json, j: nat, g: Field)
    requires table.Object? && j < |table.fields| && SameEntries(t, table, moved, g.value)
    ensures EntryHolds(t.e, t.after, t.fuel, keyword, moved, j, g) == EntryHolds(t.e, t.before, t.fuel, keyword, table, j, g)
  {
    assert Same(t, table.fields[j].value, moved.fields[j].value, g.value);
  }

  lemma {:induction false} SameDependents(t: Setting, table: Json, moved: Json, v: Json)
    requires SameEntries(t, table, moved, v)
    ensures DependentsHold(t.e, t.after, t.fuel, moved, v) == DependentsHold(t.e, t.before, t.fuel, table, v)
    ensures forall part ::
      DependentContributes(t.e, t.after, t.fuel, moved, v, part) == DependentContributes(t.e, t.before, t.fuel, table, v, part)
  {
    if table.Object? {
      forall j | 0 <= j < |table.fields|
        ensures Valid(t.e, t.after, t.fuel, moved.fields[j].value, v) == Valid(t.e, t.before, t.fuel, table.fields[j].value, v)
        ensures forall part ::
          Contributes(t.e, t.after, t.fuel, moved.fields[j].value, v, part) == Contributes(t.e, t.before, t.fuel, table.fields[j].value, v, part)
      {
        assert Same(t, table.fields[j].value, moved.fields[j].value, v);
      }
    }
  }

  // ----- A relocated schema means the same ------------------------------------------------------

  /** The setting of a business schema and the envelope that houses it. */
  ghost predicate Housed(t: Setting) {
    Portable(t.before) && Houses(t.after, t.before)
  }

  /** The i-th field after relocation. */
  lemma MovedAt(t: Setting, path: seq<Key>, n: Json, i: nat)
    requires Housed(t) && InPlace(t.before, path, n) && n.Object? && i < |n.fields|
    ensures Relocate(n).Object? && |Relocate(n).fields| == |n.fields|
    ensures Relocate(n).fields[i] == Field(n.fields[i].key, Moved(FieldMode(n.fields[i]), n.fields[i].value))
  {
    assert PortableAt(t.before, path, n);
  }

  /** A schema means the same before and after relocation, at every number of references followed. */
  lemma {:induction false} RelocationPreserves(t: Setting, path: seq<Key>, n: Json, v: Json)
    requires Housed(t) && InPlace(t.before, path, n)
    ensures Same(t, n, Relocate(n), v)
    decreases t.fuel, 1, n, 6
  {
    if n.Object? {
      assert PortableAt(t.before, path, n);
      var moved := Relocate(n);
      forall i | 0 <= i < |n.fields|
        ensures Keyword(t.e, t.after, t.fuel, moved, i, v) == Keyword(t.e, t.before, t.fuel, n, i, v)
      {
        KeywordPreserved(t, path, n, i, v);
      }
      forall i, part | 0 <= i < |n.fields|
        ensures Evaluates(t.e, t.after, t.fuel, moved, i, v, part) == Evaluates(t.e, t.before, t.fuel, n, i, v, part)
      {
        EvaluationPreserved(t, path, n, i, v, part);
      }
    }
  }

  lemma {:induction false} ValuePreserved(t: Setting, path: seq<Key>, n: Json, i: nat, w: Json)
    requires Housed(t) && InPlace(t.before, path, n) && n.Object? && i < |n.fields| && IsSchemaKeyword(n.fields[i].key)
    ensures Same(t, n.fields[i].value, Relocate(n.fields[i].value), w)
    decreases t.fuel, 1, n, 0
  {
    ValueInPlace(t.before, path, n, i);
    RelocationPreserves(t, path + [n.fields[i].key], n.fields[i].value, w);
  }

  lemma {:induction false} ElementsPreserved(t: Setting, path: seq<Key>, n: Json, i: nat, w: Json)
    requires Housed(t) && InPlace(t.before, path, n) && n.Object? && i < |n.fields| && IsSchemaKeyword(n.fields[i].key)
    ensures SameElements(t, n.fields[i].value, Relocate(n.fields[i].value), w)
    decreases t.fuel, 1, n, 0
  {
    var list := n.fields[i].value;
    if list.Array? {
      forall j | 0 <= j < |list.elements| ensures Same(t, list.elements[j], Relocate(list.elements[j]), w) {
        ElementInPlace(t.before, path, n, i, j);
        RelocationPreserves(t, path + [n.fields[i].key] + [Position(j)], list.elements[j], w);
      }
    }
  }

  lemma {:induction false} EntryPreserved(t: Setting, path: seq<Key>, n: Json, i: nat, j: nat, w: Json)
    requires Housed(t) && InPlace(t.before, path, n) && n.Object? && i < |n.fields| && HoldsSchemas(n.fields[i].key)
    requires n.fields[i].value.Object? && j < |n.fields[i].value.fields|
    ensures var entry := n.fields[i].value.fields[j]; Same(t, entry.value, Moved(EntryMode(entry), entry.value), w)
    decreases t.fuel, 1, n, 0
  {
    var entry := n.fields[i].value.fields[j];
    if entry.value.Object? {
      EntryInPlace(t.before, path, n, i, j);
      RelocationPreserves(t, path + [n.fields[i].key] + [entry.key], entry.value, w);
    }
  }

  lemma {:induction false} EntriesPreserved(t: Setting, path: seq<Key>, n: Json, i: nat, w: Json)
    requires Housed(t) && InPlace(t.before, path, n) && n.Object? && i < |n.fields| && HoldsSchemas(n.fields[i].key)
    ensures SameEntries(t, n.fields[i].value, Moved(FieldMode(n.fields[i]), n.fields[i].value), w)
    decreases t.fuel, 1, n, 1
  {
    var table := n.fields[i].value;
    if table.Object? {
      forall j | 0 <= j < |table.fields|
        ensures Same(t, table.fields[j].value, Moved(EntryMode(table.fields[j]), table.fields[j].value), w)
      {
        EntryPreserved(t, path, n, i, j, w);
      }
    }
  }

  /** What the envelope finds at a relocated pointer. */
  lemma {:induction false} TargetMoved(business: Json, envelope: Json, tokens: seq<Key>)
    requires Houses(envelope, business)
    ensures Resolve(envelope, HOME + tokens).Some? <==> Resolve(business, tokens).Some?
    ensures Resolve(business, tokens).Some? && ModeAt(Schema, business, tokens) == Schema ==>
      Resolve(envelope, HOME + tokens).value == Relocate(Resolve(business, tokens).value)
  {
    ResolveAppend(envelope, HOME, tokens);
    ResolutionCommutes(Schema, business, tokens);
  }

  ghost predicate LeadsHome(t: Setting, tokens: seq<Key>) {
    && Resolve(t.before, tokens).Some? == Resolve(t.after, HOME + tokens).Some?
    && (Resolve(t.before, tokens).Some? ==>
          && InPlace(t.before, tokens, Resolve(t.before, tokens).value)
          && Resolve(t.after, HOME + tokens).value == Relocate(Resolve(t.before, tokens).value))
  }

  /** A local reference that leads anywhere leads to a schema in place, and relocated to the relocated schema. */
  lemma TargetPlaced(t: Setting, path: seq<Key>, n: Json, i: nat)
    requires Housed(t) && InPlace(t.before, path, n) && n.Object? && i < |n.fields|
    requires IsReference(n.fields[i].key) && n.fields[i].value.Pointer?
    ensures LeadsHome(t, n.fields[i].value.tokens)
  {
    assert PortableAt(t.before, path, n) && PortableField(t.before, n.fields[i]);
    TargetMoved(t.before, t.after, n.fields[i].value.tokens);
  }

  ghost predicate SameReference(t: Setting, reference: Json, moved: Json, v: Json) {
    && Refers(t.e, t.after, t.fuel, moved, v) == Refers(t.e, t.before, t.fuel, reference, v)
    && forall part ::
         TargetContributes(t.e, t.after, t.fuel, moved, v, part) == TargetContributes(t.e, t.before, t.fuel, reference, v, part)
  }

  lemma {:induction false} SameTarget(t: Setting, tokens: seq<Key>, moved: seq<Key>, v: Json)
    requires Resolve(t.before, tokens).Some? == Resolve(t.after, moved).Some?
    requires t.fuel > 0 && Resolve(t.before, tokens).Some? ==>
      Same(t.(fuel := t.fuel - 1), Resolve(t.before, tokens).value, Resolve(t.after, moved).value, v)
    ensures SameReference(t, Pointer(tokens), Pointer(moved), v)
  {
  }

  lemma {:induction false} PointerPreserved(t: Setting, tokens: seq<Key>, v: Json)
    requires Housed(t) && LeadsHome(t, tokens)
    ensures SameReference(t, Pointer(tokens), Pointer(HOME + tokens), v)
    decreases t.fuel, 0
  {
    if t.fuel > 0 && Resolve(t.before, tokens).Some? {
      RelocationPreserves(t.(fuel := t.fuel - 1), tokens, Resolve(t.before, tokens).value, v);
    }
    SameTarget(t, tokens, HOME + tokens, v);
  }

  /** A relocated reference leads to the relocated target. */
  lemma {:induction false} ReferencePreserved(t: Setting, path: seq<Key>, n: Json, i: nat, v: Json)
    requires Housed(t) && InPlace(t.before, path, n) && n.Object? && i < |n.fields| && IsReference(n.fields[i].key)
    ensures SameReference(t, n.fields[i].value, Moved(Reference, n.fields[i].value), v)
    decreases t.fuel, 1, n, 0
  {
    if n.fields[i].value.Pointer? {
      TargetPlaced(t, path, n, i);
      PointerPreserved(t, n.fields[i].value.tokens, v);
    }
  }

  /** Which keys are named, and how long the prefix is, relocation leaves alone. */
  lemma NamesKept(t: Setting, path: seq<Key>, n: Json)
    requires Housed(t) && InPlace(t.before, path, n) && n.Object?
    ensures Relocate(n).Object?
    ensures forall key :: NamesKey(t.e, Relocate(n).fields, key) == NamesKey(t.e, n.fields, key)
    ensures forall k :: InPrefix(Relocate(n).fields, k) == InPrefix(n.fields, k)
  {
    assert PortableAt(t.before, path, n);
    var moved := Relocate(n).fields;
    forall m | 0 <= m < |n.fields|
      ensures forall key :: NamesAt(t.e, moved[m], key) == NamesAt(t.e, n.fields[m], key)
      ensures forall k :: PrefixAt(moved[m], k) == PrefixAt(n.fields[m], k)
    {
      MovedAt(t, path, n, m);
      NamesOfField(t.e, n.fields[m]);
    }
  }

  lemma {:induction false} NamesOfField(e: Engine, f: Field)
    ensures forall key :: NamesAt(e, MovedField(FieldMode(f), f), key) == NamesAt(e, f, key)
    ensures forall k :: PrefixAt(MovedField(FieldMode(f), f), k) == PrefixAt(f, k)
  {
    if f.key.Properties? || f.key.PatternProperties? {
      TableNamesKept(e, f.key, f.value);
    }
  }

  lemma {:induction false} TableNamesKept(e: Engine, keyword: Key, table: Json)
    ensures forall key :: TableNames(e, keyword, if table.Object? then Moved(Table, table) else table, key) == TableNames(e, keyword, table, key)
  {
  }

  /** An "if" comes out the same way. */
  lemma {:induction false} BranchPreserved(t: Setting, path: seq<Key>, n: Json, v: Json, outcome: bool)
    requires Housed(t) && InPlace(t.before, path, n) && n.Object?
    ensures Relocate(n).Object? && IfIs(t.e, t.after, t.fuel, Relocate(n), v, outcome) == IfIs(t.e, t.before, t.fuel, n, v, outcome)
    decreases t.fuel, 1, n, 1
  {
    assert PortableAt(t.before, path, n);
    var moved := Relocate(n).fields;
    forall k | 0 <= k < |n.fields|
      ensures moved[k].key == n.fields[k].key
      ensures n.fields[k].key == If ==>
        Valid(t.e, t.after, t.fuel, moved[k].value, v) == Valid(t.e, t.before, t.fuel, n.fields[k].value, v)
    {
      MovedAt(t, path, n, k);
      if n.fields[k].key == If {
        ValuePreserved(t, path, n, k, v);
      }
    }
  }

  /** Two fields hold keywords that evaluate the same, apart from what depends on their siblings. */
  lemma {:induction false} EvaluationPreserved(t: Setting, path: seq<Key>, n: Json, i: nat, v: Json, part: Part)
    requires Housed(t) && InPlace(t.before, path, n) && n.Object? && i < |n.fields|
    ensures Relocate(n).Object? && |Relocate(n).fields| == |n.fields|
    ensures Evaluates(t.e, t.after, t.fuel, Relocate(n), i, v, part) == Evaluates(t.e, t.before, t.fuel, n, i, v, part)
    decreases t.fuel, 1, n, 2
  {
    MovedAt(t, path, n, i);
    var f := n.fields[i];
    if IsReference(f.key) {
      ReferencePreserved(t, path, n, i, v);
    } else if IsApplicator(f.key) {
      ApplicatorPreserved(t, path, n, i, v, part);
    } else if f.key == Contains {
      SubschemaPreserved(t, path, n, i);
    } else {
      NamesKept(t, path, n);
      TableNamesKept(t.e, f.key, f.value);
    }
  }

  /** The keywords that apply subschemas to the value itself. */
  predicate IsApplicator(key: Key) {
    key.AllOf? || key.AnyOf? || key.OneOf? || key.If? || key.Then? || key.Else? || key.DependentSchemas?
  }

  lemma {:induction false} ApplicatorPreserved(t: Setting, path: seq<Key>, n: Json, i: nat, v: Json, part: Part)
    requires Housed(t) && InPlace(t.before, path, n) && n.Object? && i < |n.fields| && IsApplicator(n.fields[i].key)
    ensures Relocate(n).Object? && |Relocate(n).fields| == |n.fields|
    ensures Evaluates(t.e, t.after, t.fuel, Relocate(n), i, v, part) == Evaluates(t.e, t.before, t.fuel, n, i, v, part)
    decreases t.fuel, 1, n, 2, 0
  {
    MovedAt(t, path, n, i);
    var f := n.fields[i];
    if f.key == AllOf || f.key == AnyOf || f.key == OneOf {
      ElementsPreserved(t, path, n, i, v);
      SameContributions(t, f.value, Relocate(f.value), v, part);
    } else if f.key == DependentSchemas {
      EntriesPreserved(t, path, n, i, v);
      SameDependents(t, f.value, Moved(FieldMode(f), f.value), v);
    } else {
      ValuePreserved(t, path, n, i, v);
      BranchPreserved(t, path, n, v, f.key == Then);
    }
  }

  lemma {:induction false} BesidePreserved(t: Setting, path: seq<Key>, n: Json, v: Json, part: Part)
    requires Housed(t) && InPlace(t.before, path, n) && n.Object?
    ensures Relocate(n).Object?
    ensures EvaluatedBeside(t.e, t.after, t.fuel, Relocate(n), v, part) == EvaluatedBeside(t.e, t.before, t.fuel, n, v, part)
    decreases t.fuel, 1, n, 3
  {
    assert PortableAt(t.before, path, n);
    var moved := Relocate(n);
    forall i | 0 <= i < |n.fields|
      ensures moved.fields[i].key == n.fields[i].key
      ensures Evaluates(t.e, t.after, t.fuel, moved, i, v, part) == Evaluates(t.e, t.before, t.fuel, n, i, v, part)
    {
      MovedAt(t, path, n, i);
      EvaluationPreserved(t, path, n, i, v, part);
    }
  }

  lemma {:induction false} KeywordPreserved(t: Setting, path: seq<Key>, n: Json, i: nat, v: Json)
    requires Housed(t) && InPlace(t.before, path, n) && n.Object? && i < |n.fields|
    ensures Relocate(n).Object? && |Relocate(n).fields| == |n.fields|
    ensures Keyword(t.e, t.after, t.fuel, Relocate(n), i, v) == Keyword(t.e, t.before, t.fuel, n, i, v)
    decreases t.fuel, 1, n, 5
  {
    MovedAt(t, path, n, i);
    var f := n.fields[i];
    if IsReference(f.key) {
      ReferencePreserved(t, path, n, i, v);
    } else if f.key == AllOf || f.key == AnyOf || f.key == OneOf {
      ListPreserved(t, path, n, i, v);
    } else if f.key == Then || f.key == Else {
      ValuePreserved(t, path, n, i, v);
      BranchPreserved(t, path, n, v, f.key == Then);
    } else if HoldsSchemas(f.key) {
      TableKeywordPreserved(t, path, n, i, v);
    } else if f.key == PrefixItems {
      PrefixPreserved(t, path, n, i, v);
    } else if IsSingle(f.key) {
      SinglePreserved(t, path, n, i, v);
    }
  }

  lemma {:induction false} TableKeywordPreserved(t: Setting, path: seq<Key>, n: Json, i: nat, v: Json)
    requires Housed(t) && InPlace(t.before, path, n) && n.Object? && i < |n.fields| && HoldsSchemas(n.fields[i].key)
    ensures Relocate(n).Object? && |Relocate(n).fields| == |n.fields|
    ensures Keyword(t.e, t.after, t.fuel, Relocate(n), i, v) == Keyword(t.e, t.before, t.fuel, n, i, v)
    decreases t.fuel, 1, n, 3
  {
    MovedAt(t, path, n, i);
    var f := n.fields[i];
    if f.key == DependentSchemas {
      EntriesPreserved(t, path, n, i, v);
      SameDependents(t, f.value, Moved(FieldMode(f), f.value), v);
    } else if f.key == Properties || f.key == PatternProperties {
      TablePreserved(t, path, n, i, v);
    }
  }

  lemma {:induction false} ListPreserved(t: Setting, path: seq<Key>, n: Json, i: nat, v: Json)
    requires Housed(t) && InPlace(t.before, path, n) && n.Object? && i < |n.fields| && IsSchemaKeyword(n.fields[i].key)
    ensures var list, moved := n.fields[i].value, Relocate(n.fields[i].value);
      && EachHolds(t.e, t.after, t.fuel, moved, v) == EachHolds(t.e, t.before, t.fuel, list, v)
      && SomeHolds(t.e, t.after, t.fuel, moved, v) == SomeHolds(t.e, t.before, t.fuel, list, v)
      && OneHolds(t.e, t.after, t.fuel, moved, v) == OneHolds(t.e, t.before, t.fuel, list, v)
    decreases t.fuel, 1, n, 1
  {
    ElementsPreserved(t, path, n, i, v);
    SameLists(t, n.fields[i].value, Relocate(n.fields[i].value), v);
    SameChoice(t, n.fields[i].value, Relocate(n.fields[i].value), v);
  }

  lemma {:induction false} TablePreserved(t: Setting, path: seq<Key>, n: Json, i: nat, v: Json)
    requires Housed(t) && InPlace(t.before, path, n) && n.Object? && i < |n.fields| && HoldsSchemas(n.fields[i].key)
    ensures TableHolds(t.e, t.after, t.fuel, n.fields[i].key, Moved(FieldMode(n.fields[i]), n.fields[i].value), v)
      == TableHolds(t.e, t.before, t.fuel, n.fields[i].key, n.fields[i].value, v)
    decreases t.fuel, 1, n, 2
  {
    var f := n.fields[i];
    if v.Object? {
      forall g | g in v.fields ensures SameEntries(t, f.value, Moved(FieldMode(f), f.value), g.value) {
        EntriesPreserved(t, path, n, i, g.value);
      }
    }
    SameTable(t, f.key, f.value, Moved(FieldMode(f), f.value), v);
  }

  lemma {:induction false} PrefixPreserved(t: Setting, path: seq<Key>, n: Json, i: nat, v: Json)
    requires Housed(t) && InPlace(t.before, path, n) && n.Object? && i < |n.fields| && n.fields[i].key == PrefixItems
    ensures PrefixHolds(t.e, t.after, t.fuel, Relocate(n.fields[i].value), v) == PrefixHolds(t.e, t.before, t.fuel, n.fields[i].value, v)
    decreases t.fuel, 1, n, 1
  {
    var list := n.fields[i].value;
    if v.Array? {
      forall w | w in v.elements ensures SameElements(t, list, Relocate(list), w) {
        ElementsPreserved(t, path, n, i, w);
      }
    }
    SamePrefix(t, list, Relocate(list), v);
  }

  /** The keywords that apply one subschema to the value or to parts of it. */
  predicate IsSingle(key: Key) {
    IsSchemaKeyword(key) && !(key.AllOf? || key.AnyOf? || key.OneOf? || key.PrefixItems? || key.Then? || key.Else?)
  }

  /** The i-th field of two schemas holds one such keyword, with subschemas that accept the same values. */
  ghost predicate SameSubschema(t: Setting, s: Json, moved: Json, i: nat) {
    && s.Object? && moved.Object? && |s.fields| == |moved.fields| && i < |s.fields| && moved.fields[i].key == s.fields[i].key
    && (forall w :: Valid(t.e, t.after, t.fuel, moved.fields[i].value, w) == Valid(t.e, t.before, t.fuel, s.fields[i].value, w))
  }

  lemma {:induction false} SinglePreserved(t: Setting, path: seq<Key>, n: Json, i: nat, v: Json)
    requires Housed(t) && InPlace(t.before, path, n) && n.Object? && i < |n.fields| && IsSingle(n.fields[i].key)
    ensures Relocate(n).Object? && |Relocate(n).fields| == |n.fields|
    ensures Keyword(t.e, t.after, t.fuel, Relocate(n), i, v) == Keyword(t.e, t.before, t.fuel, n, i, v)
    decreases t.fuel, 1, n, 4
  {
    SubschemaPreserved(t, path, n, i);
    if IsUnevaluated(n.fields[i].key) {
      forall part ensures EvaluatedBeside(t.e, t.after, t.fuel, Relocate(n), v, part) == EvaluatedBeside(t.e, t.before, t.fuel, n, v, part) {
        BesidePreserved(t, path, n, v, part);
      }
      SameLeftovers(t, n, Relocate(n), i, v);
    } else {
      NamesKept(t, path, n);
      SameApplications(t, n, Relocate(n), i, v);
    }
  }

  lemma {:induction false} SubschemaPreserved(t: Setting, path: seq<Key>, n: Json, i: nat)
    requires Housed(t) && InPlace(t.before, path, n) && n.Object? && i < |n.fields| && IsSchemaKeyword(n.fields[i].key)
    ensures SameSubschema(t, n, Relocate(n), i)
    decreases t.fuel, 1, n, 1
  {
    MovedAt(t, path, n, i);
    var schema := n.fields[i].value;
    forall w ensures Valid(t.e, t.after, t.fuel, Relocate(schema), w) == Valid(t.e, t.before, t.fuel, schema, w) {
      ValuePreserved(t, path, n, i, w);
    }
  }

  lemma {:induction false} SameLeftovers(t: Setting, s: Json, moved: Json, i: nat, v: Json)
    requires SameSubschema(t, s, moved, i) && IsUnevaluated(s.fields[i].key)
    requires forall part :: EvaluatedBeside(t.e, t.after, t.fuel, moved, v, part) == EvaluatedBeside(t.e, t.before, t.fuel, s, v, part)
    ensures Keyword(t.e, t.after, t.fuel, moved, i, v) == Keyword(t.e, t.before, t.fuel, s, i, v)
  {
    var schema, other := s.fields[i].value, moved.fields[i].value;
    assert LeftMembersHold(t.e, t.after, t.fuel, moved, other, v) == LeftMembersHold(t.e, t.before, t.fuel, s, schema, v);
    assert LeftElementsHold(t.e, t.after, t.fuel, moved, other, v) == LeftElementsHold(t.e, t.before, t.fuel, s, schema, v);
  }

  lemma {:induction false} SameApplications(t: Setting, s: Json, moved: Json, i: nat, v: Json)
    requires SameSubschema(t, s, moved, i) && IsSingle(s.fields[i].key) && !IsUnevaluated(s.fields[i].key)
    requires forall key :: NamesKey(t.e, moved.fields, key) == NamesKey(t.e, s.fields, key)
    requires forall k :: InPrefix(moved.fields, k) == InPrefix(s.fields, k)
    ensures Keyword(t.e, t.after, t.fuel, moved, i, v) == Keyword(t.e, t.before, t.fuel, s, i, v)
  {
    var schema, other := s.fields[i].value, moved.fields[i].value;
    assert OthersHold(t.e, t.after, t.fuel, moved.fields, other, v) == OthersHold(t.e, t.before, t.fuel, s.fields, schema, v);
    assert RestHolds(t.e, t.after, t.fuel, moved.fields, other, v) == RestHolds(t.e, t.before, t.fuel, s.fields, schema, v);
    assert SomeItemHolds(t.e, t.after, t.fuel, other, v) == SomeItemHolds(t.e, t.before, t.fuel, schema, v);
    assert NamesHold(t.e, t.after, t.fuel, other, v) == NamesHold(t.e, t.before, t.fuel, schema, v);
  }

  // ----- The envelope -----------------------------------------------------------------------

  function TypeIs(t: Key): Json {
    Object([Field(Type, Text(t))])
  }

  function RefTo(tokens: seq<Key>): Json {
    Object([Field(Ref, Pointer(tokens))])
  }

  /** {"required": ["error"], "properties": {"error": {"type": "string"}}} */
  const ReportsError := Object([
    Field(Required, Array([Text(ErrorKey)])),
    Field(Properties, Object([Field(ErrorKey, TypeIs(StringType))]))])

  const ErrorSchema := Object([Field(Type, Array([Text(StringType), Text(NullType)])), Field(MinLength, Number(1.0))])

  const Count := Object([Field(Type, Text(IntegerType)), Field(Minimum, Number(0.0))])

  const UsageSchema := Object([
    Field(Type, Text(ObjectType)),
    Field(Properties, Object([Field(InputCount, Count), Field(OutputCount, Count), Field(TotalCount, Count)])),
    Field(AdditionalProperties, Bool(false))])

  /** What every envelope asks for; result is the schema of its result property, info that of error_info. */
  function Frame(result: Json, info: Json): seq<Field> {
    [Field(Type, Text(ObjectType)),
     Field(Properties, Object([
       Field(ResultKey, result), Field(ErrorKey, ErrorSchema), Field(ErrorInfo, info), Field(TokenUsage, UsageSchema)])),
     Field(AnyOf, Array([Object([Field(Required, Array([Text(ResultKey)]))]), ReportsError])),
     Field(AdditionalProperties, Bool(false)),
     Field(DependentSchemas, Object([Field(ErrorInfo, ReportsError)]))]
  }

  function BusinessOrNull(business: Json): Json {
    Object([Field(AnyOf, Array([Relocate(business), TypeIs(NullType)]))])
  }

  /** A declared business schema, and that only failures may leave its result null. */
  function Home(business: Json): seq<Field> {
    [Field(Defs, Object([Field(BusinessResult, BusinessOrNull(business))])),
     Field(If, ReportsError),
     Field(Else, Object([Field(Properties, Object([Field(ResultKey, RefTo(HOME))]))]))]
  }

  /** executor_result_schema; an empty business schema leaves the result open. */
  function Envelope(business: Json, info: Json): Json {
    if business == Object([]) then Object(Frame(Object([]), info))
    else Object(Frame(RefTo([Defs, BusinessResult]), info) + Home(business))
  }

  /** The assertions the argument needs to read. */
  ghost predicate ReadsTypes(e: Engine) {
    && (forall v :: e.asserts(Type, Text(ObjectType), v) <==> v.Object?)
    && (forall v :: e.asserts(Type, Text(IntegerType), v) <==> v.Number? && v.value.Floor as real == v.value)
    && (forall v :: e.asserts(Minimum, Number(0.0), v) <==> (v.Number? ==> v.value >= 0.0))
    && !e.asserts(Type, Text(StringType), Null)
    && e.asserts(Type, Array([Text(StringType), Text(NullType)]), Null) && e.asserts(MinLength, Number(1.0), Null)
  }

  lemma EnvelopeHouses(business: Json, info: Json)
    requires business != Object([])
    ensures Houses(Envelope(business, info), business)
    ensures Resolve(Envelope(business, info), [Defs, BusinessResult]) == Some(BusinessOrNull(business))
  {
    HomeIsHouse(Frame(RefTo([Defs, BusinessResult]), info), business);
  }

  /** What a schema finds at home, when it has no definitions before. */
  lemma HomeIsHouse(frame: seq<Field>, business: Json)
    requires Unnamed(frame, Defs)
    ensures Houses(Object(frame + Home(business)), business)
    ensures Resolve(Object(frame + Home(business)), [Defs, BusinessResult]) == Some(BusinessOrNull(business))
  {
    var s, home := Object(frame + Home(business)), BusinessOrNull(business);
    var definitions := Object([Field(BusinessResult, home)]);
    assert s.fields[|frame|] == Field(Defs, definitions);
    LookupFirst(s.fields, Defs, |frame|);
    LookupFirst(definitions.fields, BusinessResult, 0);
    ResolveTwo(s, Defs, definitions, BusinessResult, home);
    FirstOfTwo(business);
    ResolveAppend(s, [Defs, BusinessResult], [AnyOf, Position(0)]);
    assert HOME == [Defs, BusinessResult] + [AnyOf, Position(0)];
  }

  lemma FirstOfTwo(business: Json)
    ensures Resolve(BusinessOrNull(business), [AnyOf, Position(0)]) == Some(Relocate(business))
  {
    var list := Array([Relocate(business), TypeIs(NullType)]);
    LookupFirst([Field(AnyOf, list)], AnyOf, 0);
    ResolveTwo(BusinessOrNull(business), AnyOf, list, Position(0), Relocate(business));
  }

  lemma {:induction false} ResolveOne(v: Json, token: Key, w: Json)
    requires Child(v, token) == Some(w)
    ensures Resolve(v, [token]) == Some(w)
  {
    assert [token][1..] == [];
    assert Resolve(w, []) == Some(w);
  }

  lemma {:induction false} ResolveTwo(v: Json, first: Key, w: Json, second: Key, x: Json)
    requires Child(v, first) == Some(w) && Child(w, second) == Some(x)
    ensures Resolve(v, [first, second]) == Some(x)
  {
    assert [first, second][1..] == [second];
    ResolveOne(w, second, x);
  }

  // ----- Envelopes without an error -------------------------------------------------------------

  predicate Unnamed(fields: seq<Field>, key: Key) {
    forall k :: 0 <= k < |fields| ==> fields[k].key != key
  }

  /** No error is reported: the key is absent, or null. */
  predicate NoError(v: Json) {
    v.Object? && forall k :: 0 <= k < |v.fields| && v.fields[k].key == ErrorKey ==> v.fields[k].value == Null
  }

  /** Every field of that name satisfies the schema. */
  ghost predicate Under(e: Engine, doc: Json, fuel: nat, schema: Json, key: Key, v: Json)
    requires v.Object?
  {
    forall k :: 0 <= k < |v.fields| && v.fields[k].key == key ==> Valid(e, doc, fuel, schema, v.fields[k].value)
  }

  lemma {:induction false} OneFieldMeans(e: Engine, doc: Json, fuel: nat, f: Field, v: Json)
    ensures Valid(e, doc, fuel, Object([f]), v) <==> Keyword(e, doc, fuel, Object([f]), 0, v)
  {
  }

  lemma {:induction false} TwoFieldsMean(e: Engine, doc: Json, fuel: nat, f: Field, g: Field, v: Json)
    ensures Valid(e, doc, fuel, Object([f, g]), v) <==>
      Keyword(e, doc, fuel, Object([f, g]), 0, v) && Keyword(e, doc, fuel, Object([f, g]), 1, v)
  {
  }

  /** A table of properties asks for each of them. */
  lemma {:induction false} TableMeans(e: Engine, doc: Json, fuel: nat, table: seq<Field>, v: Json)
    requires v.Object?
    ensures TableHolds(e, doc, fuel, Properties, Object(table), v) <==>
      forall j :: 0 <= j < |table| ==> Under(e, doc, fuel, table[j].value, table[j].key, v)
  {
    var t := Object(table);
    forall j, k | 0 <= j < |table| && 0 <= k < |v.fields|
      ensures EntryHolds(e, doc, fuel, Properties, t, j, v.fields[k]) <==>
        (v.fields[k].key == table[j].key ==> Valid(e, doc, fuel, table[j].value, v.fields[k].value))
    {
    }
  }

  /** A table with one entry asks for that entry only. */
  lemma {:induction false} OneProperty(e: Engine, doc: Json, fuel: nat, key: Key, schema: Json, v: Json)
    requires v.Object?
    ensures Valid(e, doc, fuel, Object([Field(Properties, Object([Field(key, schema)]))]), v) <==> Under(e, doc, fuel, schema, key, v)
  {
    OneFieldMeans(e, doc, fuel, Field(Properties, Object([Field(key, schema)])), v);
    TableMeans(e, doc, fuel, [Field(key, schema)], v);
    assert [Field(key, schema)][0] == Field(key, schema);
  }

  lemma {:induction false} OneReference(e: Engine, doc: Json, fuel: nat, tokens: seq<Key>, v: Json)
    ensures Valid(e, doc, fuel, RefTo(tokens), v) <==> Refers(e, doc, fuel, Pointer(tokens), v)
  {
    OneFieldMeans(e, doc, fuel, Field(Ref, Pointer(tokens)), v);
  }

  lemma {:induction false} OneRequired(e: Engine, doc: Json, fuel: nat, key: Key, v: Json)
    requires v.Object?
    ensures Valid(e, doc, fuel, Object([Field(Required, Array([Text(key)]))]), v) <==> !Unnamed(v.fields, key)
  {
    OneFieldMeans(e, doc, fuel, Field(Required, Array([Text(key)])), v);
    HasOne(key, v);
  }

  lemma HasOne(key: Key, v: Json)
    requires v.Object?
    ensures HasAll(Array([Text(key)]), v) <==> !Unnamed(v.fields, key)
  {
    assert Array([Text(key)]).elements[0] == Text(key);
  }

  lemma {:induction false} NoErrorReported(e: Engine, doc: Json, fuel: nat, v: Json)
    requires ReadsTypes(e) && NoError(v)
    ensures !Valid(e, doc, fuel, ReportsError, v)
  {
    var required, table := Array([Text(ErrorKey)]), [Field(ErrorKey, TypeIs(StringType))];
    TwoFieldsMean(e, doc, fuel, Field(Required, required), Field(Properties, Object(table)), v);
    HasOne(ErrorKey, v);
    TableMeans(e, doc, fuel, table, v);
    NullIsNoString(e, doc, fuel);
    assert table[0] == Field(ErrorKey, TypeIs(StringType));
  }

  lemma {:induction false} NullIsNoString(e: Engine, doc: Json, fuel: nat)
    requires ReadsTypes(e)
    ensures !Valid(e, doc, fuel, TypeIs(StringType), Null) && Valid(e, doc, fuel, ErrorSchema, Null)
  {
    OneFieldMeans(e, doc, fuel, Field(Type, Text(StringType)), Null);
    TwoFieldsMean(e, doc, fuel, Field(Type, Array([Text(StringType), Text(NullType)])), Field(MinLength, Number(1.0)), Null);
  }

  lemma NullErrorsPass(e: Engine, doc: Json, fuel: nat, v: Json)
    requires ReadsTypes(e) && NoError(v)
    ensures Under(e, doc, fuel, ErrorSchema, ErrorKey, v)
  {
    NullIsNoString(e, doc, fuel);
  }

  /** "anyOf": a result, or an error. */
  lemma {:induction false} AsksForResult(e: Engine, doc: Json, fuel: nat, s: Json, i: nat, v: Json)
    requires ReadsTypes(e) && NoError(v) && s.Object? && i < |s.fields|
    requires s.fields[i] == Field(AnyOf, Array([Object([Field(Required, Array([Text(ResultKey)]))]), ReportsError]))
    ensures Keyword(e, doc, fuel, s, i, v) <==> !Unnamed(v.fields, ResultKey)
  {
    OneRequired(e, doc, fuel, ResultKey, v);
    NoErrorReported(e, doc, fuel, v);
    var branches := s.fields[i].value.elements;
    assert branches[0] == Object([Field(Required, Array([Text(ResultKey)]))]) && branches[1] == ReportsError;
  }

  /** "dependentSchemas": metadata of an error needs an error. */
  lemma {:induction false} AsksForNoMetadata(e: Engine, doc: Json, fuel: nat, s: Json, i: nat, v: Json)
    requires ReadsTypes(e) && NoError(v) && s.Object? && i < |s.fields|
    requires s.fields[i] == Field(DependentSchemas, Object([Field(ErrorInfo, ReportsError)]))
    ensures Keyword(e, doc, fuel, s, i, v) <==> Unnamed(v.fields, ErrorInfo)
  {
    NoErrorReported(e, doc, fuel, v);
    DependentMeans(e, doc, fuel, Field(ErrorInfo, ReportsError), v);
  }

  lemma {:induction false} DependentMeans(e: Engine, doc: Json, fuel: nat, f: Field, v: Json)
    requires v.Object?
    ensures DependentsHold(e, doc, fuel, Object([f]), v) <==> Unnamed(v.fields, f.key) || Valid(e, doc, fuel, f.value, v)
  {
    var table := Object([f]);
    assert table.fields[0] == f;
  }

  /** "else": without an error, the result satisfies the business schema. */
  lemma {:induction false} AsksForBusiness(e: Engine, doc: Json, fuel: nat, s: Json, i: nat, k: nat, v: Json)
    requires ReadsTypes(e) && NoError(v) && s.Object? && i < |s.fields| && k < |s.fields|
    requires s.fields[i] == Field(Else, Object([Field(Properties, Object([Field(ResultKey, RefTo(HOME))]))]))
    requires s.fields[k] == Field(If, ReportsError)
    ensures Keyword(e, doc, fuel, s, i, v) <==> Under(e, doc, fuel, RefTo(HOME), ResultKey, v)
  {
    NoErrorReported(e, doc, fuel, v);
    OneProperty(e, doc, fuel, ResultKey, RefTo(HOME), v);
    assert s.fields[k].key == If && !Valid(e, doc, fuel, s.fields[k].value, v);
  }

  /** "properties": only the result and the usage are left to ask for. */
  lemma {:induction false} AsksForParts(e: Engine, doc: Json, fuel: nat, s: Json, i: nat, result: Json, info: Json, v: Json)
    requires ReadsTypes(e) && NoError(v) && Unnamed(v.fields, ErrorInfo) && s.Object? && i < |s.fields|
    requires s.fields[i] == Frame(result, info)[1]
    ensures Keyword(e, doc, fuel, s, i, v) <==>
      Under(e, doc, fuel, result, ResultKey, v) && Under(e, doc, fuel, UsageSchema, TokenUsage, v)
  {
    NullErrorsPass(e, doc, fuel, v);
    TableOfFour(e, doc, fuel, Field(ResultKey, result), Field(ErrorKey, ErrorSchema), Field(ErrorInfo, info), Field(TokenUsage, UsageSchema), v);
  }

  lemma {:induction false} TableOfFour(e: Engine, doc: Json, fuel: nat, a: Field, b: Field, c: Field, d: Field, v: Json)
    requires v.Object?
    ensures TableHolds(e, doc, fuel, Properties, Object([a, b, c, d]), v) <==>
      Under(e, doc, fuel, a.value, a.key, v) && Under(e, doc, fuel, b.value, b.key, v)
      && Under(e, doc, fuel, c.value, c.key, v) && Under(e, doc, fuel, d.value, d.key, v)
  {
    TableMeans(e, doc, fuel, [a, b, c, d], v);
    FourUnder(e, doc, fuel, [a, b, c, d], v);
  }

  lemma FourUnder(e: Engine, doc: Json, fuel: nat, table: seq<Field>, v: Json)
    requires v.Object? && |table| == 4
    ensures (forall j :: 0 <= j < |table| ==> Under(e, doc, fuel, table[j].value, table[j].key, v)) <==>
      Under(e, doc, fuel, table[0].value, table[0].key, v) && Under(e, doc, fuel, table[1].value, table[1].key, v)
      && Under(e, doc, fuel, table[2].value, table[2].key, v) && Under(e, doc, fuel, table[3].value, table[3].key, v)
  {
  }

  /** A closed object whose properties are the table at position p has no other keys. */
  lemma {:induction false} AsksForKnownKeys(e: Engine, doc: Json, fuel: nat, s: Json, i: nat, p: nat, v: Json)
    requires v.Object? && s.Object? && i < |s.fields| && p < |s.fields|
    requires s.fields[i] == Field(AdditionalProperties, Bool(false))
    requires s.fields[p].key == Properties && s.fields[p].value.Object?
    requires forall m :: 0 <= m < |s.fields| && m != p ==> s.fields[m].key != Properties && s.fields[m].key != PatternProperties
    ensures Keyword(e, doc, fuel, s, i, v) <==>
      forall k :: 0 <= k < |v.fields| ==> !Unnamed(s.fields[p].value.fields, v.fields[k].key)
  {
    forall key ensures NamesKey(e, s.fields, key) <==> !Unnamed(s.fields[p].value.fields, key) {
      assert NamesAt(e, s.fields[p], key) <==> !Unnamed(s.fields[p].value.fields, key);
    }
    NothingElse(e, doc, fuel, s.fields, v);
  }

  lemma {:induction false} NothingElse(e: Engine, doc: Json, fuel: nat, fields: seq<Field>, v: Json)
    requires v.Object?
    ensures OthersHold(e, doc, fuel, fields, Bool(false), v) <==> forall k :: 0 <= k < |v.fields| ==> NamesKey(e, fields, v.fields[k].key)
  {
    forall w ensures !Valid(e, doc, fuel, Bool(false), w) {
    }
  }

  /** Usage counters are integers that are not negative. */
  predicate IsCount(v: Json) {
    v.Number? && v.value.Floor as real == v.value && v.value >= 0.0
  }

  predicate IsUsage(v: Json) {
    v.Object? && forall k :: 0 <= k < |v.fields| ==>
      (v.fields[k].key == InputCount || v.fields[k].key == OutputCount || v.fields[k].key == TotalCount) && IsCount(v.fields[k].value)
  }

  lemma {:induction false} CountMeans(e: Engine, doc: Json, fuel: nat, v: Json)
    requires ReadsTypes(e)
    ensures Valid(e, doc, fuel, Count, v) <==> IsCount(v)
  {
    TwoFieldsMean(e, doc, fuel, Field(Type, Text(IntegerType)), Field(Minimum, Number(0.0)), v);
  }

  /** The usage schema accepts exactly dictionaries of counters. */
  lemma {:induction false} UsageMeans(e: Engine, doc: Json, fuel: nat, v: Json)
    requires ReadsTypes(e)
    ensures Valid(e, doc, fuel, UsageSchema, v) <==> IsUsage(v)
  {
    var table := [Field(InputCount, Count), Field(OutputCount, Count), Field(TotalCount, Count)];
    var s := Object([Field(Type, Text(ObjectType)), Field(Properties, Object(table)), Field(AdditionalProperties, Bool(false))]);
    assert s == UsageSchema;
    ThreeFieldsMean(e, doc, fuel, s, v);
    if v.Object? {
      AsksForKnownKeys(e, doc, fuel, s, 2, 1, v);
      TableMeans(e, doc, fuel, table, v);
      ThreeCounts(e, doc, fuel, table, v);
    }
  }

  lemma {:induction false} ThreeFieldsMean(e: Engine, doc: Json, fuel: nat, s: Json, v: Json)
    requires s.Object? && |s.fields| == 3
    ensures Valid(e, doc, fuel, s, v) <==>
      Keyword(e, doc, fuel, s, 0, v) && Keyword(e, doc, fuel, s, 1, v) && Keyword(e, doc, fuel, s, 2, v)
  {
  }

  lemma ThreeCounts(e: Engine, doc: Json, fuel: nat, table: seq<Field>, v: Json)
    requires ReadsTypes(e) && v.Object?
    requires table == [Field(InputCount, Count), Field(OutputCount, Count), Field(TotalCount, Count)]
    ensures IsUsage(v) <==>
      && (forall j :: 0 <= j < |table| ==> Under(e, doc, fuel, table[j].value, table[j].key, v))
      && (forall k :: 0 <= k < |v.fields| ==> !Unnamed(table, v.fields[k].key))
  {
    forall k | 0 <= k < |v.fields| ensures Valid(e, doc, fuel, Count, v.fields[k].value) <==> IsCount(v.fields[k].value) {
      CountMeans(e, doc, fuel, v.fields[k].value);
    }
    assert table[0].key == InputCount && table[1].key == OutputCount && table[2].key == TotalCount;
    assert forall j :: 0 <= j < |table| ==> table[j].value == Count;
    forall key ensures !Unnamed(table, key) <==> key == InputCount || key == OutputCount || key == TotalCount {
    }
  }

  predicate KnownKey(key: Key) {
    key == ResultKey || key == ErrorKey || key == TokenUsage
  }

  /** What the protocol itself asks of an envelope without an error. */
  predicate WellFormed(v: Json) {
    && v.Object? && !Unnamed(v.fields, ResultKey)
    && (forall k :: 0 <= k < |v.fields| ==> KnownKey(v.fields[k].key) && (v.fields[k].key == TokenUsage ==> IsUsage(v.fields[k].value)))
  }

  lemma WellFormedMeans(e: Engine, doc: Json, fuel: nat, v: Json)
    requires ReadsTypes(e) && v.Object?
    ensures WellFormed(v) <==>
      && !Unnamed(v.fields, ResultKey) && Unnamed(v.fields, ErrorInfo)
      && (forall k :: 0 <= k < |v.fields| ==> KnownKey(v.fields[k].key) || v.fields[k].key == ErrorInfo)
      && Under(e, doc, fuel, UsageSchema, TokenUsage, v)
  {
    forall k | 0 <= k < |v.fields| ensures Valid(e, doc, fuel, UsageSchema, v.fields[k].value) <==> IsUsage(v.fields[k].value) {
      UsageMeans(e, doc, fuel, v.fields[k].value);
    }
  }

  lemma FrameNames(result: Json, info: Json, key: Key)
    ensures !Unnamed(Frame(result, info)[1].value.fields, key) <==> KnownKey(key) || key == ErrorInfo
  {
    var table := Frame(result, info)[1].value.fields;
    assert table[0].key == ResultKey && table[1].key == ErrorKey && table[2].key == ErrorInfo && table[3].key == TokenUsage;
  }

  /** The keywords common to every envelope, on a value without an error. */
  ghost predicate FrameHolds(e: Engine, doc: Json, fuel: nat, s: Json, v: Json)
    requires s.Object? && 5 <= |s.fields|
  {
    && Keyword(e, doc, fuel, s, 0, v) && Keyword(e, doc, fuel, s, 1, v) && Keyword(e, doc, fuel, s, 2, v)
    && Keyword(e, doc, fuel, s, 3, v) && Keyword(e, doc, fuel, s, 4, v)
  }

  lemma FrameMeans(e: Engine, doc: Json, fuel: nat, s: Json, result: Json, info: Json, v: Json)
    requires ReadsTypes(e) && NoError(v) && s.Object? && Frame(result, info) <= s.fields
    requires forall m :: 5 <= m < |s.fields| ==> s.fields[m].key != Properties && s.fields[m].key != PatternProperties
    ensures FrameHolds(e, doc, fuel, s, v) <==> WellFormed(v) && Under(e, doc, fuel, result, ResultKey, v)
  {
    FrameFields(s, result, info);
    AsksForObject(e, doc, fuel, s, 0, v);
    AsksForResult(e, doc, fuel, s, 2, v);
    AsksForFrameKeys(e, doc, fuel, s, result, info, v);
    AsksForNoMetadata(e, doc, fuel, s, 4, v);
    if Unnamed(v.fields, ErrorInfo) {
      AsksForParts(e, doc, fuel, s, 1, result, info, v);
    }
    WellFormedMeans(e, doc, fuel, v);
  }

  lemma {:induction false} AsksForFrameKeys(e: Engine, doc: Json, fuel: nat, s: Json, result: Json, info: Json, v: Json)
    requires v.Object? && s.Object? && 5 <= |s.fields| && forall i :: 0 <= i < 5 ==> s.fields[i] == Frame(result, info)[i]
    requires forall m :: 5 <= m < |s.fields| ==> s.fields[m].key != Properties && s.fields[m].key != PatternProperties
    ensures Keyword(e, doc, fuel, s, 3, v) <==>
      forall k :: 0 <= k < |v.fields| ==> KnownKey(v.fields[k].key) || v.fields[k].key == ErrorInfo
  {
    AsksForKnownKeys(e, doc, fuel, s, 3, 1, v);
    forall key ensures !Unnamed(s.fields[1].value.fields, key) <==> KnownKey(key) || key == ErrorInfo {
      FrameNames(result, info, key);
    }
  }

  lemma FrameFields(s: Json, result: Json, info: Json)
    requires s.Object? && Frame(result, info) <= s.fields
    ensures |s.fields| >= 5 && forall i :: 0 <= i < 5 ==> s.fields[i] == Frame(result, info)[i]
  {
  }

  lemma {:induction false} AsksForObject(e: Engine, doc: Json, fuel: nat, s: Json, i: nat, v: Json)
    requires ReadsTypes(e) && s.Object? && i < |s.fields| && s.fields[i] == Field(Type, Text(ObjectType))
    ensures Keyword(e, doc, fuel, s, i, v) <==> v.Object?
  {
  }

  /** The definition the result property refers to accepts whatever the business schema does. */
  lemma {:induction false} BusinessOrNullAccepts(e: Engine, doc: Json, business: Json, fuel: nat, result: Json)
    requires Valid(e, doc, fuel, Relocate(business), result)
    ensures Valid(e, doc, fuel, BusinessOrNull(business), result)
  {
    var home := BusinessOrNull(business);
    assert home.fields[0].value.elements[0] == Relocate(business);
    assert Keyword(e, doc, fuel, home, 0, result);
  }

  /** The envelope's own references: to the business schema or null, and to the business schema itself. */
  lemma {:induction false} EnvelopeReferences(e: Engine, business: Json, info: Json, fuel: nat, result: Json)
    requires Portable(business) && business != Object([])
    ensures var envelope := Envelope(business, info);
      && (Valid(e, envelope, fuel + 1, RefTo(HOME), result) <==> Valid(e, business, fuel, business, result))
      && (Valid(e, business, fuel, business, result) ==> Valid(e, envelope, fuel + 1, RefTo([Defs, BusinessResult]), result))
  {
    var envelope := Envelope(business, info);
    EnvelopeHouses(business, info);
    assert InPlace(business, [], business);
    RelocationPreserves(Setting(e, business, envelope, fuel), [], business, result);
    assert Same(Setting(e, business, envelope, fuel), business, Relocate(business), result);
    OneReference(e, envelope, fuel + 1, HOME, result);
    OneReference(e, envelope, fuel + 1, [Defs, BusinessResult], result);
    if Valid(e, business, fuel, business, result) {
      BusinessOrNullAccepts(e, envelope, business, fuel, result);
    }
  }

  /**
   * An envelope without an error is accepted exactly when it is well formed and its result is valid under the
   * original business schema; following the envelope's own reference is the one extra step.
   */
  lemma {:induction false} EnvelopeAcceptsBusinessResults(e: Engine, business: Json, info: Json, fuel: nat, v: Json)
    requires ReadsTypes(e) && Portable(business) && NoError(v)
    ensures Valid(e, Envelope(business, info), fuel + 1, Envelope(business, info), v) <==>
      WellFormed(v) && Under(e, business, fuel, business, ResultKey, v)
  {
    if business == Object([]) {
      var envelope, steps := Envelope(business, info), fuel + 1;
      FrameMeans(e, envelope, steps, envelope, Object([]), info, v);
      FiveKeywords(e, envelope, steps, v);
      forall w ensures Valid(e, envelope, steps, Object([]), w) && Valid(e, business, fuel, Object([]), w) {
        NoKeywords(e, envelope, steps, w);
        NoKeywords(e, business, fuel, w);
      }
    } else {
      DeclaredEnvelope(e, business, info, fuel, v);
    }
  }

  lemma {:induction false} DeclaredEnvelope(e: Engine, business: Json, info: Json, fuel: nat, v: Json)
    requires ReadsTypes(e) && Portable(business) && NoError(v) && business != Object([])
    ensures Valid(e, Envelope(business, info), fuel + 1, Envelope(business, info), v) <==>
      WellFormed(v) && Under(e, business, fuel, business, ResultKey, v)
  {
    var envelope, steps := Envelope(business, info), fuel + 1;
    forall k | 0 <= k < |v.fields|
      ensures Valid(e, envelope, steps, RefTo(HOME), v.fields[k].value) <==> Valid(e, business, fuel, business, v.fields[k].value)
      ensures Valid(e, business, fuel, business, v.fields[k].value) ==> Valid(e, envelope, steps, RefTo([Defs, BusinessResult]), v.fields[k].value)
    {
      EnvelopeReferences(e, business, info, fuel, v.fields[k].value);
    }
    FrameMeans(e, envelope, steps, envelope, RefTo([Defs, BusinessResult]), info, v);
    AsksForBusiness(e, envelope, steps, envelope, 7, 6, v);
    assert Keyword(e, envelope, steps, envelope, 5, v) && Keyword(e, envelope, steps, envelope, 6, v);
    EightKeywords(e, envelope, steps, v);
  }

  lemma {:induction false} NoKeywords(e: Engine, doc: Json, fuel: nat, v: Json)
    ensures Valid(e, doc, fuel, Object([]), v)
  {
  }

  lemma {:induction false} FiveKeywords(e: Engine, s: Json, fuel: nat, v: Json)
    requires s.Object? && |s.fields| == 5
    ensures Valid(e, s, fuel, s, v) <==> FrameHolds(e, s, fuel, s, v)
  {
    if FrameHolds(e, s, fuel, s, v) {
      forall i | 0 <= i < |s.fields| ensures Keyword(e, s, fuel, s, i, v) {
        assert i == 0 || i == 1 || i == 2 || i == 3 || i == 4;
      }
    }
  }

  lemma {:induction false} EightKeywords(e: Engine, s: Json, fuel: nat, v: Json)
    requires s.Object? && |s.fields| == 8
    ensures Valid(e, s, fuel, s, v) <==>
      FrameHolds(e, s, fuel, s, v) && Keyword(e, s, fuel, s, 5, v) && Keyword(e, s, fuel, s, 6, v) && Keyword(e, s, fuel, s, 7, v)
  {
    if FrameHolds(e, s, fuel, s, v) && Keyword(e, s, fuel, s, 5, v) && Keyword(e, s, fuel, s, 6, v) && Keyword(e, s, fuel, s, 7, v) {
      forall i | 0 <= i < |s.fields| ensures Keyword(e, s, fuel, s, i, v) {
        assert i == 0 || i == 1 || i == 2 || i == 3 || i == 4 || i == 5 || i == 6 || i == 7;
      }
    }
  }
}
