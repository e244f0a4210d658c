/** A whole lifecycle: a comment is submitted, a wrong key is refused, the
    analysis is attached with the right key, and the analysed listing shows it. */
module Scenario {
  import opened Wrappers
  import opened JsText
  import opened Model
  import opened AccessGate
  import opened CreateComment
  import opened SentimentPatch
  import opened Listing

  const Secret: string := "s3cr3t"

  const Analysis: PatchBody := PatchBody(Str("positive"), Some(Finite(0.9)), Bool(true))

  /** The analysis sent with the right key is applied to a stored row, the
      store stays valid, and every answer to `?is_analyzed=true` afterwards
      contains the analysed row. */
  lemma AnalysisListed(st: Store, id: nat)
    requires Valid(st) && id in st.comments
    ensures
      var (patched, st') := Patch(st, Secret, Some(Secret), id, Analysis);
      && patched.Ok?
      && patched.value.id == id
      && patched.value.sentiment == Positive
      && patched.value.confidence == 0.9
      && patched.value.isAnalyzed
      && Valid(st')
      && (forall rows :: IsListing(st', AnalyzedFilter(Str("true")), rows) ==> patched.value in rows)
  {
    assert Validate(Analysis) == Ok(Update(Some(Positive), Some(0.9), Some(true)));
    PatchPreservesValid(st, Secret, Some(Secret), id, Analysis);
    var (patched, st') := Patch(st, Secret, Some(Secret), id, Analysis);
    assert st'.comments[id] == patched.value;
    assert AnalyzedFilter(Str("true")) == Some(true) by { assert Lower("true") == "true"; }
  }

  /** From any valid store, for any submission with a non-blank text and
      topic (such as "Great product" on topic "t1"): it is accepted as
      pending and unanalysed, a patch with a wrong key is refused and changes
      nothing, and the patch with the right key is then applied (that the
      analysed listing then holds the row is `AnalysisListed`). */
  lemma Lifecycle(st: Store, text: string, topic: string, now: nat)
    requires Valid(st)
    requires !AllWhitespace(text) && !AllWhitespace(topic)
    ensures
      var (created, st1) := Create(st, CreateBody(Str(text), Undefined, Str(topic)), now);
      && created.Ok?
      && created.value.sentiment == Pending && !created.value.isAnalyzed
      && Patch(st1, Secret, Some("wrong"), created.value.id, Analysis) == (Err(Forbidden), st1)
      && Patch(st1, Secret, Some(Secret), created.value.id, Analysis).0.Ok?
  {
    var submission := CreateBody(Str(text), Undefined, Str(topic));
    assert NormaliseAuthor(Undefined) == Ok(None);
    CreatePreservesValid(st, submission, now);
    var out := Create(st, submission, now);
    var created, st1 := out.0, out.1;
    assert created.Ok?;
    var c := created.value;
    assert c.sentiment == Pending && !c.isAnalyzed;
    assert st1.comments == st.comments[c.id := c];
    assert c.id in st1.comments;
    assert !Authorize(Secret, Some("wrong"));
    AnalysisListed(st1, c.id);
  }
}
