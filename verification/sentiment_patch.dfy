/** PATCH /api/comments/:id/sentiment: the privileged partial update of a
    comment's analysis fields. */
module SentimentPatch {
  import opened Wrappers
  import opened JsText
  import opened Model
  import opened AccessGate

  /** What `Number(sentiment_confidence)` gives: a finite number, NaN or an
      infinity, or a TypeError thrown while converting an object from which
      neither `valueOf` nor `toString` gets a primitive (such as one whose
      `toString` is not a function). */
  datatype Numeric = Finite(value: real) | NotFinite | Throws

  /** The three properties the handler reads from the JSON body. The
      confidence is given already converted by `Number()`; `None` stands for
      a property that is not there. */
  datatype PatchBody = PatchBody(result: JsValue, confidence: Option<Numeric>, analyzed: JsValue)

  /** A checked update: the fields to set, `None` for those to leave alone. */
  datatype Update = Update(sentiment: Option<Sentiment>, confidence: Option<real>, analyzed: Option<bool>)

  /** How a present `is_analyzed` becomes a flag: a boolean is kept, and any
      other value is true exactly when `String(v).toLowerCase()` is "true".
      `String()` of null gives "null" and of a number gives a numeral, "NaN"
      or "Infinity", none of which is "true". `None` is the TypeError of a
      `String()` that throws. */
  function CoerceFlag(v: JsValue): (flag: Option<bool>)
    ensures flag.None? <==> ToStringThrows(v)
    ensures v.Bool? ==> flag == Some(v.b)
    ensures v.Str? ==> (flag == Some(true) <==> Lower(v.s) == "true")
    ensures v.Composite? && v.rendering.Some? ==>
      (flag == Some(true) <==> Lower(v.rendering.value) == "true")
    ensures v.Null? || v.Num? ==> flag == Some(false)
  {
    match v
    case Bool(b) => Some(b)
    case Str(s) => Some(Lower(s) == "true")
    case Composite(t) => if t.None? then None else Some(Lower(t.value) == "true")
    case _ => Some(false)
  }

  /** True when the field is present in the body. */
  predicate Present(v: JsValue) {
    !v.Undefined?
  }

  /** A present `sentiment_result` that is not one of the four exact names. */
  predicate BadResult(v: JsValue) {
    Present(v) && !(v.Str? && v.s in AllowedResults)
  }

  /** A present confidence whose conversion by `Number()` throws. */
  predicate ConfidenceThrows(n: Option<Numeric>) {
    n.Some? && n.value.Throws?
  }

  /** A present confidence that converts, but not to a finite number in [0, 1]. */
  predicate BadConfidence(n: Option<Numeric>) {
    n.Some? && !n.value.Throws? && !(n.value.Finite? && 0.0 <= n.value.value <= 1.0)
  }

  /** A present `is_analyzed` whose conversion by `String()` throws. */
  predicate FlagThrows(v: JsValue) {
    Present(v) && ToStringThrows(v)
  }

  /** The checks the handler makes before it touches the table, in its
      order: the result, then the confidence (converting it may throw), then
      the flag (converting it may throw), then that some field is there. A
      throw is a TypeError, the others are refusals with their message. On
      success, exactly the present fields are set. */
  function Validate(body: PatchBody): (r: Result<Update, ApiError>)
    ensures BadResult(body.result) ==> r == Err(BadRequest(InvalidResult))
    ensures !BadResult(body.result) && ConfidenceThrows(body.confidence) ==> r == Err(TypeError)
    ensures !BadResult(body.result) && BadConfidence(body.confidence) ==> r == Err(BadRequest(InvalidConfidence))
    ensures (!BadResult(body.result) && !ConfidenceThrows(body.confidence) && !BadConfidence(body.confidence)
      && FlagThrows(body.analyzed)) ==> r == Err(TypeError)
    ensures r == Err(TypeError) <==>
      !BadResult(body.result) && (ConfidenceThrows(body.confidence) ||
        (!BadConfidence(body.confidence) && FlagThrows(body.analyzed)))
    ensures r == Err(BadRequest(NoFields)) <==>
      !Present(body.result) && body.confidence.None? && !Present(body.analyzed)
    ensures r.Ok? <==>
      && !BadResult(body.result) && !ConfidenceThrows(body.confidence) && !BadConfidence(body.confidence)
      && !FlagThrows(body.analyzed)
      && (Present(body.result) || body.confidence.Some? || Present(body.analyzed))
    ensures r.Ok? ==>
      && (r.value.sentiment.Some? <==> Present(body.result))
      && (r.value.sentiment.Some? ==> SentimentName(r.value.sentiment.value) == body.result.s)
      && (r.value.confidence.Some? <==> body.confidence.Some?)
      && (r.value.confidence.Some? ==> r.value.confidence.value == body.confidence.value.value)
      && (r.value.analyzed.Some? <==> Present(body.analyzed))
      && (r.value.analyzed.Some? ==> Some(r.value.analyzed.value) == CoerceFlag(body.analyzed))
  {
    if BadResult(body.result) then Err(BadRequest(InvalidResult))
    else
      var sentiment := if Present(body.result) then ParseSentiment(body.result.s) else None;
      if ConfidenceThrows(body.confidence) then Err(TypeError)
      else if BadConfidence(body.confidence) then Err(BadRequest(InvalidConfidence))
      else
        var confidence := if body.confidence.Some? then Some(body.confidence.value.value) else None;
        if FlagThrows(body.analyzed) then Err(TypeError)
        else
          var analyzed := if Present(body.analyzed) then CoerceFlag(body.analyzed) else None;
          if sentiment.None? && confidence.None? && analyzed.None? then Err(BadRequest(NoFields))
          else Ok(Update(sentiment, confidence, analyzed))
  }

  /** The confidence a checked update sets is always within [0, 1]. */
  lemma ValidatedConfidenceInRange(body: PatchBody)
    requires Validate(body).Ok? && Validate(body).value.confidence.Some?
    ensures 0.0 <= Validate(body).value.confidence.value <= 1.0
  {
  }

  /** The row after an update: each supplied field takes its new value. */
  function Apply(c: Comment, u: Update): (r: Comment)
    ensures u.sentiment.Some? ==> r.sentiment == u.sentiment.value
    ensures u.confidence.Some? ==> r.confidence == u.confidence.value
    ensures u.analyzed.Some? ==> r.isAnalyzed == u.analyzed.value
  {
    c.(sentiment := u.sentiment.GetOr(c.sentiment),
       confidence := u.confidence.GetOr(c.confidence),
       isAnalyzed := u.analyzed.GetOr(c.isAnalyzed))
  }

  /** An update changes only the fields it supplies: the others, and the
      identity, text, author, topic and creation time, stay as they were. */
  lemma ApplyChangesOnlySupplied(c: Comment, u: Update)
    ensures var c' := Apply(c, u);
      && c'.id == c.id && c'.text == c.text && c'.authorName == c.authorName
      && c'.topicId == c.topicId && c'.createdAt == c.createdAt
      && (u.sentiment.None? ==> c'.sentiment == c.sentiment)
      && (u.confidence.None? ==> c'.confidence == c.confidence)
      && (u.analyzed.None? ==> c'.isAnalyzed == c.isAnalyzed)
  {
  }

  /** Applying the same update twice is applying it once. */
  lemma ApplyIdempotent(c: Comment, u: Update)
    ensures Apply(Apply(c, u), u) == Apply(c, u)
  {
  }

  /** The PATCH route: the gate runs first, then the body checks (whose
      throws end the request as a TypeError), and only then is the row looked
      up and updated. An id that names no row (also a path segment that is
      not a number) gives NotFound. */
  function Patch(st: Store, secret: string, header: Option<string>, id: int, body: PatchBody): (out: (Response, Store))
    ensures !Authorize(secret, header) ==> out == (Err(Forbidden), st)
    ensures Authorize(secret, header) && Validate(body).Err? ==>
      out == (Err(Validate(body).error), st)
    ensures out.0.Err? ==> out.1 == st
    ensures out.0 == Err(NotFound) <==>
      Authorize(secret, header) && Validate(body).Ok? && !(id >= 0 && id in st.comments)
    ensures out.0.Ok? <==>
      Authorize(secret, header) && Validate(body).Ok? && id >= 0 && id in st.comments
    ensures out.0.Ok? ==>
      && out.0.value == Apply(st.comments[id], Validate(body).value)
      && out.1 == st.(comments := st.comments[id := out.0.value])
  {
    if !Authorize(secret, header) then (Err(Forbidden), st)
    else
      match Validate(body)
      case Err(e) => (Err(e), st)
      case Ok(u) =>
        if id < 0 || id !in st.comments then (Err(NotFound), st)
        else
          var c := Apply(st.comments[id], u);
          (Ok(c), st.(comments := st.comments[id := c]))
  }

  /** A denied request answers Forbidden and changes nothing, whatever the id
      and the body; in particular it does not reveal whether the id exists. */
  lemma DeniedChangesNothing(st: Store, secret: string, header: Option<string>, id: int, id': int, body: PatchBody, body': PatchBody)
    requires !Authorize(secret, header)
    ensures Patch(st, secret, header, id, body) == (Err(Forbidden), st)
    ensures Patch(st, secret, header, id, body) == Patch(st, secret, header, id', body')
  {
  }

  /** The body checks come before the lookup: an invalid body is refused, or
      throws, the same way for an unknown id as for a known one, and never
      with NotFound. */
  lemma ValidationPrecedesLookup(st: Store, secret: string, header: Option<string>, id: int, id': int, body: PatchBody)
    requires Authorize(secret, header) && Validate(body).Err?
    ensures Patch(st, secret, header, id, body).0 == Patch(st, secret, header, id', body).0
    ensures Patch(st, secret, header, id, body).0.error.BadRequest? || Patch(st, secret, header, id, body).0.error.TypeError?
  {
  }

  /** An `is_analyzed` that `String()` cannot convert, behind a result and a
      confidence that pass their checks, ends an authorised request with the
      TypeError before the table is touched, whether or not the id exists. */
  lemma FlagThrowPrecedesUpdate(st: Store, secret: string, id: int, body: PatchBody)
    requires secret != ""
    requires !BadResult(body.result) && !ConfidenceThrows(body.confidence) && !BadConfidence(body.confidence)
    requires FlagThrows(body.analyzed)
    ensures Patch(st, secret, Some(secret), id, body) == (Err(TypeError), st)
  {
  }

  /** A successful update touches one row, and in it only the supplied fields. */
  lemma PatchTouchesOneRow(st: Store, secret: string, header: Option<string>, id: int, body: PatchBody)
    requires Patch(st, secret, header, id, body).0.Ok?
    ensures var st' := Patch(st, secret, header, id, body).1;
      && st'.nextId == st.nextId
      && st'.comments.Keys == st.comments.Keys
      && (forall k :: k in st.comments && k != id ==> st'.comments[k] == st.comments[k])
      && st'.comments[id] == Apply(st.comments[id], Validate(body).value)
  {
  }

  /** Sending the same request twice leaves the store as sending it once. */
  lemma PatchIdempotent(st: Store, secret: string, header: Option<string>, id: int, body: PatchBody)
    ensures var st1 := Patch(st, secret, header, id, body).1;
      Patch(st1, secret, header, id, body).1 == st1
  {
    var st1 := Patch(st, secret, header, id, body).1;
    if Patch(st, secret, header, id, body).0.Ok? {
      ApplyIdempotent(st.comments[id], Validate(body).value);
      assert st1.comments[id := Apply(st1.comments[id], Validate(body).value)] == st1.comments;
    }
  }

  /** The update keeps the store invariant: rows stay keyed and well formed,
      because a stored confidence is always checked to lie in [0, 1]. */
  lemma PatchPreservesValid(st: Store, secret: string, header: Option<string>, id: int, body: PatchBody)
    requires Valid(st)
    ensures Valid(Patch(st, secret, header, id, body).1)
  {
  }

  /** Nothing forbids going back: an analysed positive row can be reset to
      pending and unanalysed by the privileged path. */
  lemma BackwardTransitionAllowed(st: Store, secret: string, id: nat)
    requires secret != "" && id in st.comments
    requires st.comments[id].sentiment == Positive && st.comments[id].isAnalyzed
    ensures var (r, st') := Patch(st, secret, Some(secret), id, PatchBody(Str("pending"), None, Bool(false)));
      r.Ok? && st'.comments[id].sentiment == Pending && !st'.comments[id].isAnalyzed
  {
  }

  /** The flag accepts a native boolean or "true" in any letter case; any
      other string, such as "yes", gives false. */
  lemma FlagCoercionExamples()
    ensures CoerceFlag(Bool(true)) == Some(true) && CoerceFlag(Bool(false)) == Some(false)
    ensures CoerceFlag(Str("TRUE")) == Some(true) && CoerceFlag(Str("True")) == Some(true)
    ensures CoerceFlag(Str("yes")) == Some(false) && CoerceFlag(Str("false")) == Some(false)
    ensures CoerceFlag(Num(1.0)) == Some(false) && CoerceFlag(Composite(None)) == None
  {
  }

  /** An unknown or wrongly cased result, an out-of-range or non-finite
      confidence and an empty body are refused, the result checked first. */
  lemma ValidationExamples()
    ensures Validate(PatchBody(Str("ecstatic"), None, Undefined)) == Err(BadRequest(InvalidResult))
    ensures Validate(PatchBody(Undefined, Some(Finite(1.5)), Undefined)) == Err(BadRequest(InvalidConfidence))
    ensures Validate(PatchBody(Undefined, Some(NotFinite), Undefined)) == Err(BadRequest(InvalidConfidence))
    ensures Validate(PatchBody(Undefined, None, Undefined)) == Err(BadRequest(NoFields))
    ensures Validate(PatchBody(Str("Positive"), None, Undefined)) == Err(BadRequest(InvalidResult))
    ensures Validate(PatchBody(Str("ecstatic"), Some(Finite(1.5)), Undefined)) == Err(BadRequest(InvalidResult))
    ensures Validate(PatchBody(Str("ecstatic"), None, Composite(None))) == Err(BadRequest(InvalidResult))
    ensures Validate(PatchBody(Undefined, Some(Finite(1.5)), Composite(None))) == Err(BadRequest(InvalidConfidence))
    ensures Validate(PatchBody(Undefined, Some(Finite(0.5)), Composite(None))) == Err(TypeError)
  {
  }
}
