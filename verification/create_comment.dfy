/** POST /api/comments: validation of a submitted comment and its insertion. */
module CreateComment {
  import opened Wrappers
  import opened JsText
  import opened Model

  /** The three properties the handler reads from the JSON body; a request
      without a body reads all three as `Undefined`. */
  datatype CreateBody = CreateBody(text: JsValue, authorName: JsValue, topicId: JsValue)

  /** The guard the handler puts on `text` and on `topic_id`: the value is
      falsy, not a string, or only whitespace. */
  predicate Missing(v: JsValue)
    ensures !Missing(v) <==> v.Str? && !AllWhitespace(v.s)
  {
    Falsy(v) || !v.Str? || |Trim(v.s)| == 0
  }

  /** `author_name?.trim() || null`: an absent or null author stays null, a
      string is trimmed and becomes null when nothing is left, and any other
      value has no `trim` method, so the call throws. */
  function NormaliseAuthor(v: JsValue): (r: Result<Option<string>, ApiError>)
    ensures r.Ok? <==> v.Undefined? || v.Null? || v.Str?
    ensures r.Err? ==> r.error == TypeError
    ensures r.Ok? && r.value.Some? ==> v.Str? && r.value.value == Trim(v.s)
    ensures r.Ok? && r.value.Some? ==> r.value.value != [] && IsTrimmed(r.value.value)
    ensures v.Str? && !AllWhitespace(v.s) ==> r == Ok(Some(Trim(v.s)))
  {
    match v
    case Undefined => Ok(None)
    case Null => Ok(None)
    case Str(s) => var t := Trim(s); if t == [] then Ok(None) else Ok(Some(t))
    case _ => Err(TypeError)
  }

  /** The row the handler inserts: trimmed text and topic, the normalised
      author, the default analysis triple and the given id and instant. */
  function NewComment(id: nat, text: string, author: Option<string>, topic: string, now: nat): Comment {
    Comment(id, Trim(text), author, Trim(topic), Pending, 0.0, false, now)
  }

  /** The POST handler. `now` is the instant `new Date()` reads. The text is
      checked first, then the topic; only then is the author normalised,
      while the insert's arguments are evaluated. On success the new row goes
      in under `nextId` and is returned as stored. */
  function Create(st: Store, body: CreateBody, now: nat): (out: (Response, Store))
    ensures Missing(body.text) ==> out == (Err(BadRequest(TextRequired)), st)
    ensures !Missing(body.text) && Missing(body.topicId) ==> out == (Err(BadRequest(TopicRequired)), st)
    ensures !Missing(body.text) && !Missing(body.topicId) && NormaliseAuthor(body.authorName).Err? ==>
      out == (Err(TypeError), st)
    ensures out.0.Err? ==> out.1 == st
    ensures out.0.Ok? <==>
      !Missing(body.text) && !Missing(body.topicId) && NormaliseAuthor(body.authorName).Ok?
    ensures out.0.Ok? ==>
      var c := out.0.value;
      && c.id == st.nextId
      && out.1 == Store(st.comments[c.id := c], st.nextId + 1)
      && c.text == Trim(body.text.s)
      && c.topicId == Trim(body.topicId.s)
      && c.authorName == NormaliseAuthor(body.authorName).value
      && c.sentiment == Pending && c.confidence == 0.0 && !c.isAnalyzed
      && c.createdAt == now
  {
    if Missing(body.text) then (Err(BadRequest(TextRequired)), st)
    else if Missing(body.topicId) then (Err(BadRequest(TopicRequired)), st)
    else
      match NormaliseAuthor(body.authorName)
      case Err(e) => (Err(e), st)
      case Ok(author) =>
        var c := NewComment(st.nextId, body.text.s, author, body.topicId.s, now);
        (Ok(c), Store(st.comments[c.id := c], st.nextId + 1))
  }

  /** Adding an entry under an unused key grows the map by exactly that entry. */
  lemma AddFreshKey(m: map<nat, Comment>, k: nat, v: Comment)
    requires k !in m
    ensures m[k := v].Keys == m.Keys + {k}
    ensures |m[k := v]| == |m| + 1
    ensures forall j :: j in m ==> m[k := v][j] == m[j]
  {
  }

  /** A successful create adds exactly one row, under an id that was not in
      use, and leaves every other row as it was. */
  lemma CreateAddsOneFreshRow(st: Store, body: CreateBody, now: nat)
    requires Valid(st)
    ensures var (r, st') := Create(st, body, now);
      r.Ok? ==>
        && r.value.id !in st.comments
        && st'.comments.Keys == st.comments.Keys + {r.value.id}
        && |st'.comments| == |st.comments| + 1
        && st'.comments[r.value.id] == r.value
        && (forall id :: id in st.comments ==> st'.comments[id] == st.comments[id])
  {
    var (r, st') := Create(st, body, now);
    if r.Ok? {
      var c := r.value;
      assert c.id == st.nextId && st'.comments == st.comments[c.id := c];
      assert c.id !in st.comments;
      AddFreshKey(st.comments, c.id, c);
    }
  }

  /** Creating keeps the store invariant, success or not. */
  lemma CreatePreservesValid(st: Store, body: CreateBody, now: nat)
    requires Valid(st)
    ensures Valid(Create(st, body, now).1)
  {
    var (r, st') := Create(st, body, now);
    if r.Ok? {
      var c := r.value;
      assert c.id == st.nextId && st' == Store(st.comments[c.id := c], st.nextId + 1);
      assert WellFormed(c) by {
        assert !AllWhitespace(body.text.s) && !AllWhitespace(body.topicId.s);
        assert c.text == Trim(body.text.s) && c.topicId == Trim(body.topicId.s);
        assert c.authorName == NormaliseAuthor(body.authorName).value;
      }
      forall id | id in st'.comments
        ensures st'.comments[id].id == id && 1 <= id < st'.nextId && WellFormed(st'.comments[id])
      {
        if id != c.id {
          assert st'.comments[id] == st.comments[id];
        }
      }
    }
  }

  /** A blank text is refused whatever else the body holds; a blank topic is
      refused when the text is fine; either way the store is left as it was. */
  lemma BlankFieldsRefused(st: Store, text: string, author: JsValue, topic: string, now: nat)
    ensures AllWhitespace(text) ==>
      Create(st, CreateBody(Str(text), author, Str(topic)), now) == (Err(BadRequest(TextRequired)), st)
    ensures !AllWhitespace(text) && AllWhitespace(topic) ==>
      Create(st, CreateBody(Str(text), author, Str(topic)), now) == (Err(BadRequest(TopicRequired)), st)
  {
  }

  /** A missing body, or one whose text is not a string, is refused as missing text. */
  lemma NonStringTextRefused(st: Store, body: CreateBody, now: nat)
    requires !body.text.Str?
    ensures Create(st, body, now) == (Err(BadRequest(TextRequired)), st)
    ensures Create(st, CreateBody(Undefined, Undefined, Undefined), now) == (Err(BadRequest(TextRequired)), st)
  {
  }
}
