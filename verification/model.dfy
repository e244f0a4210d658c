/** The comment record, the store that holds the `user_comments` table, and the
    errors a handler answers with. */
module Model {
  import opened Wrappers
  import opened JsText

  /** The four values `sentiment_result` may hold. */
  datatype Sentiment = Positive | Neutral | Negative | Pending

  /** The text the server stores and sends for each sentiment. */
  function SentimentName(s: Sentiment): string {
    match s
    case Positive => "positive"
    case Neutral => "neutral"
    case Negative => "negative"
    case Pending => "pending"
  }

  /** The list of accepted `sentiment_result` strings, in the order the server writes it. */
  const AllowedResults: seq<string> := ["positive", "neutral", "negative", "pending"]

  /** Reads a `sentiment_result` string; only the four exact, lower-case names are accepted. */
  function ParseSentiment(name: string): (r: Option<Sentiment>)
    ensures r.Some? <==> name in AllowedResults
    ensures r.Some? ==> SentimentName(r.value) == name
  {
    if name == "positive" then Some(Positive)
    else if name == "neutral" then Some(Neutral)
    else if name == "negative" then Some(Negative)
    else if name == "pending" then Some(Pending)
    else None
  }

  /** Every sentiment reads back from its own name, and its name is an accepted string. */
  lemma ParseName(s: Sentiment)
    ensures ParseSentiment(SentimentName(s)) == Some(s)
    ensures SentimentName(s) in AllowedResults
  {
  }

  /** One row of `user_comments`. `createdAt` is the creation instant as a
      number that grows with time; `authorName` is `None` for SQL NULL. */
  datatype Comment = Comment(
    id: nat,
    text: string,
    authorName: Option<string>,
    topicId: string,
    sentiment: Sentiment,
    confidence: real,
    isAnalyzed: bool,
    createdAt: nat)

  /** The table: the rows by id, and the next id AUTOINCREMENT will hand out. */
  datatype Store = Store(comments: map<nat, Comment>, nextId: nat)

  /** A fresh database: no rows, and AUTOINCREMENT starts at 1. */
  const EmptyStore: Store := Store(map[], 1)

  /** What every stored row satisfies: required text fields are trimmed and
      non-empty, an author is trimmed and non-empty when present, and the
      confidence lies in [0, 1]. */
  predicate WellFormed(c: Comment) {
    && c.text != [] && IsTrimmed(c.text)
    && c.topicId != [] && IsTrimmed(c.topicId)
    && (c.authorName.Some? ==> c.authorName.value != [] && IsTrimmed(c.authorName.value))
    && 0.0 <= c.confidence <= 1.0
  }

  /** Each row is filed under its own id. */
  predicate Keyed(st: Store) {
    forall id :: id in st.comments ==> st.comments[id].id == id
  }

  /** The store invariant: rows are keyed by id, every id was handed out
      before (so `nextId` is fresh), and every row is well formed. */
  predicate Valid(st: Store)
    ensures Valid(st) ==> st.nextId !in st.comments && 0 !in st.comments
  {
    && 1 <= st.nextId
    && Keyed(st)
    && forall id :: id in st.comments ==> 1 <= id < st.nextId && WellFormed(st.comments[id])
  }

  /** The empty store satisfies the invariant. */
  lemma EmptyStoreValid()
    ensures Valid(EmptyStore)
  {
  }

  /** The errors the handlers answer with. `TypeError` is an exception the
      handler does not catch, which Express turns into a 500 response. */
  datatype ApiError = Forbidden | BadRequest(message: string) | NotFound | TypeError

  /** The answer of a handler: the stored row, or an error. */
  type Response = Result<Comment, ApiError>

  /** The HTTP status code each error is sent with: a client error for the
      refusals the handlers write, a server error for the uncaught exception. */
  function StatusCode(e: ApiError): (code: nat)
    ensures 400 <= code < 600
    ensures code < 500 <==> !e.TypeError?
    ensures code == 403 <==> e.Forbidden?
    ensures code == 400 <==> e.BadRequest?
    ensures code == 404 <==> e.NotFound?
  {
    match e
    case Forbidden => 403
    case BadRequest(_) => 400
    case NotFound => 404
    case TypeError => 500
  }

  /** The `error` text of the JSON body each error is sent with; the uncaught
      exception gets Express's default page, which has none. */
  function ErrorMessage(e: ApiError): (msg: Option<string>)
    ensures msg.None? <==> e.TypeError?
    ensures e.BadRequest? ==> msg == Some(e.message)
  {
    match e
    case Forbidden => Some(ForbiddenMessage)
    case BadRequest(m) => Some(m)
    case NotFound => Some(NotFoundMessage)
    case TypeError => None
  }

  const ForbiddenMessage: string := "Forbidden: invalid service key"
  const NotFoundMessage: string := "Not found"
  const TextRequired: string := "Field \"text\" is required"
  const TopicRequired: string := "Field \"topic_id\" is required"
  const InvalidResult: string := "Invalid sentiment_result"
  const InvalidConfidence: string := "Invalid sentiment_confidence (0..1)"
  const NoFields: string := "No allowed fields to update"
}
