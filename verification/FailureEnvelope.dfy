/** Result envelopes that report an error. */
module FailureEnvelope {
  import opened Prelude
  import opened RefRelocation

  predicate IsString(v: Json) {
    v.Text? || v.Pointer?
  }

  /** The assertions about errors; how long a string is stays with the engine. */
  ghost predicate ReadsErrors(e: Engine) {
    && ReadsTypes(e)
    && (forall v :: e.asserts(Type, Text(StringType), v) <==> IsString(v))
    && (forall v :: e.asserts(Type, Text(NullType), v) <==> v.Null?)
    && (forall v :: e.asserts(Type, Array([Text(StringType), Text(NullType)]), v) <==> IsString(v) || v.Null?)
  }

  predicate NotEmpty(e: Engine, v: Json) {
    e.asserts(MinLength, Number(1.0), v)
  }

  /** The error is there, and a string. */
  predicate HasError(v: Json) {
    v.Object? && !Unnamed(v.fields, ErrorKey) && forall k :: 0 <= k < |v.fields| && v.fields[k].key == ErrorKey ==> IsString(v.fields[k].value)
  }

  lemma {:induction false} ErrorMeans(e: Engine, doc: Json, fuel: nat, w: Json)
    requires ReadsErrors(e)
    ensures Valid(e, doc, fuel, TypeIs(StringType), w) <==> IsString(w)
    ensures Valid(e, doc, fuel, TypeIs(NullType), w) <==> w.Null?
    ensures Valid(e, doc, fuel, ErrorSchema, w) <==> (IsString(w) || w.Null?) && NotEmpty(e, w)
  {
    OneFieldMeans(e, doc, fuel, Field(Type, Text(StringType)), w);
    OneFieldMeans(e, doc, fuel, Field(Type, Text(NullType)), w);
    TwoFieldsMean(e, doc, fuel, Field(Type, Array([Text(StringType), Text(NullType)])), Field(MinLength, Number(1.0)), w);
  }

  lemma {:induction false} ErrorReported(e: Engine, doc: Json, fuel: nat, v: Json)
    requires ReadsErrors(e) && v.Object?
    ensures Valid(e, doc, fuel, ReportsError, v) <==> HasError(v)
  {
    var required, table := Array([Text(ErrorKey)]), [Field(ErrorKey, TypeIs(StringType))];
    TwoFieldsMean(e, doc, fuel, Field(Required, required), Field(Properties, Object(table)), v);
    HasOne(ErrorKey, v);
    TableMeans(e, doc, fuel, table, v);
    assert table[0] == Field(ErrorKey, TypeIs(StringType));
    forall k | 0 <= k < |v.fields| ensures Valid(e, doc, fuel, TypeIs(StringType), v.fields[k].value) <==> IsString(v.fields[k].value) {
      ErrorMeans(e, doc, fuel, v.fields[k].value);
    }
  }

  // ----- The keywords of the envelope, one by one -----------------------------------------------

  lemma {:induction false} NeedsNoResult(e: Engine, doc: Json, fuel: nat, s: Json, i: nat, v: Json)
    requires ReadsErrors(e) && HasError(v) && s.Object? && i < |s.fields|
    requires s.fields[i] == Field(AnyOf, Array([Object([Field(Required, Array([Text(ResultKey)]))]), ReportsError]))
    ensures Keyword(e, doc, fuel, s, i, v)
  {
    ErrorReported(e, doc, fuel, v);
    assert s.fields[i].value.elements[1] == ReportsError;
  }

  lemma {:induction false} MayHaveMetadata(e: Engine, doc: Json, fuel: nat, s: Json, i: nat, v: Json)
    requires ReadsErrors(e) && HasError(v) && s.Object? && i < |s.fields|
    requires s.fields[i] == Field(DependentSchemas, Object([Field(ErrorInfo, ReportsError)]))
    ensures Keyword(e, doc, fuel, s, i, v)
  {
    ErrorReported(e, doc, fuel, v);
    DependentMeans(e, doc, fuel, Field(ErrorInfo, ReportsError), v);
  }

  /** "else" does not apply. */
  lemma {:induction false} NeedsNoBusiness(e: Engine, doc: Json, fuel: nat, s: Json, i: nat, v: Json)
    requires ReadsErrors(e) && HasError(v) && s.Object? && i < |s.fields| && s.fields[i].key == Else
    requires forall k :: 0 <= k < |s.fields| && s.fields[k].key == If ==> s.fields[k].value == ReportsError
    ensures Keyword(e, doc, fuel, s, i, v)
  {
    ErrorReported(e, doc, fuel, v);
  }

  /** The definitions, "if" and "else" of a declared business schema ask nothing of a failure. */
  lemma {:induction false} HomeAsksNothing(e: Engine, doc: Json, fuel: nat, s: Json, v: Json)
    requires ReadsErrors(e) && HasError(v) && s.Object? && |s.fields| == 8
    requires s.fields[5].key == Defs && s.fields[6] == Field(If, ReportsError) && s.fields[7].key == Else
    requires forall k :: 0 <= k < 5 ==> s.fields[k].key != If
    ensures Keyword(e, doc, fuel, s, 5, v) && Keyword(e, doc, fuel, s, 6, v) && Keyword(e, doc, fuel, s, 7, v)
  {
    NeedsNoBusiness(e, doc, fuel, s, 7, v);
  }

  /** The error is a string, or null, and not empty. */
  predicate ErrorsFit(e: Engine, v: Json)
    requires v.Object?
  {
    forall k :: 0 <= k < |v.fields| && v.fields[k].key == ErrorKey ==> NotEmpty(e, v.fields[k].value)
  }

  lemma {:induction false} ErrorsUnderSchema(e: Engine, doc: Json, fuel: nat, v: Json)
    requires ReadsErrors(e) && HasError(v)
    ensures Under(e, doc, fuel, ErrorSchema, ErrorKey, v) <==> ErrorsFit(e, v)
  {
    forall k | 0 <= k < |v.fields| && v.fields[k].key == ErrorKey
      ensures Valid(e, doc, fuel, ErrorSchema, v.fields[k].value) <==> NotEmpty(e, v.fields[k].value)
    {
      ErrorMeans(e, doc, fuel, v.fields[k].value);
    }
  }

  /** What the protocol asks of an envelope with an error. */
  ghost predicate WellFormedFailure(e: Engine, doc: Json, fuel: nat, info: Json, v: Json) {
    && v.Object? && ErrorsFit(e, v) && Under(e, doc, fuel, info, ErrorInfo, v)
    && (forall k :: 0 <= k < |v.fields| ==> KnownKey(v.fields[k].key) || v.fields[k].key == ErrorInfo)
    && (forall k :: 0 <= k < |v.fields| && v.fields[k].key == TokenUsage ==> IsUsage(v.fields[k].value))
  }

  lemma UsageUnderSchema(e: Engine, doc: Json, fuel: nat, v: Json)
    requires ReadsTypes(e) && v.Object?
    ensures Under(e, doc, fuel, UsageSchema, TokenUsage, v)
      <==> forall k :: 0 <= k < |v.fields| && v.fields[k].key == TokenUsage ==> IsUsage(v.fields[k].value)
  {
    forall k | 0 <= k < |v.fields| ensures Valid(e, doc, fuel, UsageSchema, v.fields[k].value) <==> IsUsage(v.fields[k].value) {
      UsageMeans(e, doc, fuel, v.fields[k].value);
    }
  }

  lemma {:induction false} FailureFrame(e: Engine, doc: Json, fuel: nat, s: Json, result: Json, info: Json, v: Json)
    requires ReadsErrors(e) && HasError(v) && s.Object? && Frame(result, info) <= s.fields
    requires forall m :: 5 <= m < |s.fields| ==> s.fields[m].key != Properties && s.fields[m].key != PatternProperties
    ensures |s.fields| >= 5
    ensures FrameHolds(e, doc, fuel, s, v) <==> WellFormedFailure(e, doc, fuel, info, v) && Under(e, doc, fuel, result, ResultKey, v)
  {
    FrameFields(s, result, info);
    AsksForObject(e, doc, fuel, s, 0, v);
    NeedsNoResult(e, doc, fuel, s, 2, v);
    AsksForFrameKeys(e, doc, fuel, s, result, info, v);
    MayHaveMetadata(e, doc, fuel, s, 4, v);
    PartsMean(e, doc, fuel, s, result, info, v);
  }

  /** "properties": one demand for each of the four keys. */
  lemma {:induction false} PartsAreFour(e: Engine, doc: Json, fuel: nat, s: Json, result: Json, info: Json, v: Json)
    requires v.Object? && s.Object? && 2 <= |s.fields| && s.fields[1] == Frame(result, info)[1]
    ensures Keyword(e, doc, fuel, s, 1, v) <==>
      && Under(e, doc, fuel, result, ResultKey, v) && Under(e, doc, fuel, ErrorSchema, ErrorKey, v)
      && Under(e, doc, fuel, info, ErrorInfo, v) && Under(e, doc, fuel, UsageSchema, TokenUsage, v)
  {
    TableOfFour(e, doc, fuel, Field(ResultKey, result), Field(ErrorKey, ErrorSchema), Field(ErrorInfo, info), Field(TokenUsage, UsageSchema), v);
  }

  lemma {:induction false} PartsMean(e: Engine, doc: Json, fuel: nat, s: Json, result: Json, info: Json, v: Json)
    requires ReadsErrors(e) && HasError(v) && s.Object? && 2 <= |s.fields| && s.fields[1] == Frame(result, info)[1]
    ensures Keyword(e, doc, fuel, s, 1, v) <==>
      && Under(e, doc, fuel, result, ResultKey, v) && ErrorsFit(e, v) && Under(e, doc, fuel, info, ErrorInfo, v)
      && forall k :: 0 <= k < |v.fields| && v.fields[k].key == TokenUsage ==> IsUsage(v.fields[k].value)
  {
    ErrorsUnderSchema(e, doc, fuel, v);
    UsageUnderSchema(e, doc, fuel, v);
    PartsAreFour(e, doc, fuel, s, result, info, v);
  }

  // ----- Results of failures --------------------------------------------------------------------

  lemma {:induction false} BusinessOrNullMeans(e: Engine, doc: Json, business: Json, fuel: nat, w: Json)
    requires ReadsErrors(e)
    ensures Valid(e, doc, fuel, BusinessOrNull(business), w) <==> w.Null? || Valid(e, doc, fuel, Relocate(business), w)
  {
    var branches := Array([Relocate(business), TypeIs(NullType)]);
    OneFieldMeans(e, doc, fuel, Field(AnyOf, branches), w);
    ErrorMeans(e, doc, fuel, w);
    assert branches.elements[0] == Relocate(business) && branches.elements[1] == TypeIs(NullType);
  }

  lemma {:induction false} BusinessAtHome(e: Engine, business: Json, info: Json, fuel: nat, w: Json)
    requires Portable(business) && business != Object([])
    ensures Valid(e, Envelope(business, info), fuel, Relocate(business), w) <==> Valid(e, business, fuel, business, w)
  {
    EnvelopeHouses(business, info);
    assert InPlace(business, [], business);
    RelocationPreserves(Setting(e, business, Envelope(business, info), fuel), [], business, w);
    assert Same(Setting(e, business, Envelope(business, info), fuel), business, Relocate(business), w);
  }

  lemma {:induction false} ReferenceMeans(e: Engine, doc: Json, fuel: nat, tokens: seq<Key>, target: Json, w: Json)
    requires Resolve(doc, tokens) == Some(target)
    ensures Valid(e, doc, fuel + 1, RefTo(tokens), w) <==> Valid(e, doc, fuel, target, w)
  {
    OneReference(e, doc, fuel + 1, tokens, w);
  }

  lemma {:induction false} FailureReference(e: Engine, business: Json, info: Json, fuel: nat, w: Json)
    requires ReadsErrors(e) && Portable(business) && business != Object([])
    ensures Valid(e, Envelope(business, info), fuel + 1, RefTo([Defs, BusinessResult]), w)
      <==> w.Null? || Valid(e, business, fuel, business, w)
  {
    EnvelopeHouses(business, info);
    ReferenceMeans(e, Envelope(business, info), fuel, [Defs, BusinessResult], BusinessOrNull(business), w);
    BusinessOrNullMeans(e, Envelope(business, info), business, fuel, w);
    BusinessAtHome(e, business, info, fuel, w);
  }

  /** A failure may have any result where no business schema is declared; else null, or a result valid under it. */
  ghost predicate ResultFits(e: Engine, business: Json, fuel: nat, v: Json)
    requires v.Object?
  {
    business == Object([]) || forall k :: 0 <= k < |v.fields| && v.fields[k].key == ResultKey ==>
      v.fields[k].value.Null? || Valid(e, business, fuel, business, v.fields[k].value)
  }

  lemma {:induction false} ResultsUnderReference(e: Engine, business: Json, info: Json, fuel: nat, v: Json)
    requires ReadsErrors(e) && Portable(business) && v.Object? && business != Object([])
    ensures Under(e, Envelope(business, info), fuel + 1, RefTo([Defs, BusinessResult]), ResultKey, v) <==> ResultFits(e, business, fuel, v)
  {
    forall k | 0 <= k < |v.fields|
      ensures Valid(e, Envelope(business, info), fuel + 1, RefTo([Defs, BusinessResult]), v.fields[k].value)
        <==> v.fields[k].value.Null? || Valid(e, business, fuel, business, v.fields[k].value)
    {
      FailureReference(e, business, info, fuel, v.fields[k].value);
    }
  }

  /** The keywords of an envelope for a declared business schema. */
  ghost predicate Declares(s: Json, info: Json) {
    && s.Object? && |s.fields| == 8 && Frame(RefTo([Defs, BusinessResult]), info) <= s.fields
    && s.fields[5].key == Defs && s.fields[6] == Field(If, ReportsError) && s.fields[7].key == Else
    && forall k :: 0 <= k < 5 ==> s.fields[k].key != If
  }

  lemma EnvelopeDeclares(business: Json, info: Json)
    requires business != Object([])
    ensures Declares(Envelope(business, info), info)
  {
  }

  lemma {:induction false} DeclaredMeans(e: Engine, s: Json, fuel: nat, info: Json, v: Json)
    requires ReadsErrors(e) && HasError(v) && Declares(s, info)
    ensures Valid(e, s, fuel, s, v) <==>
      WellFormedFailure(e, s, fuel, info, v) && Under(e, s, fuel, RefTo([Defs, BusinessResult]), ResultKey, v)
  {
    FailureFrame(e, s, fuel, s, RefTo([Defs, BusinessResult]), info, v);
    HomeAsksNothing(e, s, fuel, s, v);
    EightKeywords(e, s, fuel, v);
  }

  lemma {:induction false} DeclaredFailure(e: Engine, business: Json, info: Json, fuel: nat, v: Json)
    requires ReadsErrors(e) && Portable(business) && HasError(v) && business != Object([])
    ensures Valid(e, Envelope(business, info), fuel + 1, Envelope(business, info), v) <==>
      WellFormedFailure(e, Envelope(business, info), fuel + 1, info, v) && ResultFits(e, business, fuel, v)
  {
    ResultsUnderReference(e, business, info, fuel, v);
    EnvelopeDeclares(business, info);
    DeclaredMeans(e, Envelope(business, info), fuel + 1, info, v);
  }

  /**
   * An envelope with an error is accepted exactly when its keys are known, the error is not empty, its metadata and usage
   * fit their schemas, and its result, if any, is null or valid under the original business schema, if there is one.
   */
  lemma {:induction false} EnvelopeAcceptsFailures(e: Engine, business: Json, info: Json, fuel: nat, v: Json)
    requires ReadsErrors(e) && Portable(business) && HasError(v)
    ensures Valid(e, Envelope(business, info), fuel + 1, Envelope(business, info), v) <==>
      WellFormedFailure(e, Envelope(business, info), fuel + 1, info, v) && ResultFits(e, business, fuel, v)
  {
    if business == Object([]) {
      var envelope, steps := Envelope(business, info), fuel + 1;
      FailureFrame(e, envelope, steps, envelope, Object([]), info, v);
      FiveKeywords(e, envelope, steps, v);
      forall w ensures Valid(e, envelope, steps, Object([]), w) {
        NoKeywords(e, envelope, steps, w);
      }
    } else {
      DeclaredFailure(e, business, info, fuel, v);
    }
  }

  lemma {:induction false} OneKeywordFails(e: Engine, doc: Json, fuel: nat, s: Json, i: nat, v: Json)
    requires s.Object? && i < |s.fields| && !Keyword(e, doc, fuel, s, i, v)
    ensures !Valid(e, doc, fuel, s, v)
  {
  }

  /** An error that is neither a string nor null is never accepted. */
  lemma {:induction false} EnvelopeRefusesOtherErrors(e: Engine, business: Json, info: Json, fuel: nat, v: Json, k: nat)
    requires ReadsErrors(e) && v.Object? && k < |v.fields| && v.fields[k].key == ErrorKey
    requires !IsString(v.fields[k].value) && !v.fields[k].value.Null?
    ensures !Valid(e, Envelope(business, info), fuel, Envelope(business, info), v)
  {
    var envelope := Envelope(business, info);
    var result := if business == Object([]) then Object([]) else RefTo([Defs, BusinessResult]);
    assert |envelope.fields| >= 2 && envelope.fields[1] == Frame(result, info)[1];
    ErrorMeans(e, envelope, fuel, v.fields[k].value);
    PartsAreFour(e, envelope, fuel, envelope, result, info, v);
    OneKeywordFails(e, envelope, fuel, envelope, 1, v);
  }
}
