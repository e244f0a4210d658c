/** The two display rules of the browser script: the badge class for a
    sentiment and the name shown for a comment's author. */
module Display {
  import opened Wrappers
  import opened JsText
  import opened Model
  import CreateComment

  /** The three sentiments the badge tells apart; anything else is shown as pending. */
  const BadgeKeys: seq<string> := ["positive", "neutral", "negative"]

  /** `badgeClass`: the empty (falsy) result is pending; otherwise the
      lower-cased text picks its badge when it is one of the three verdicts,
      and pending when it is not. */
  function BadgeClass(result: string): (cls: string)
    ensures |cls| > 6 && cls[..6] == "badge " && cls[6..] in AllowedResults
    ensures result == "" ==> cls == "badge pending"
    ensures result != "" && Lower(result) in BadgeKeys ==> cls[6..] == Lower(result)
    ensures Lower(result) !in BadgeKeys ==> cls == "badge pending"
  {
    if result == "" then "badge pending"
    else
      var key := Lower(result);
      "badge " + (if key in BadgeKeys then key else "pending")
  }

  /** The class ignores letter case. */
  lemma BadgeCaseInsensitive(result: string)
    ensures BadgeClass(Lower(result)) == BadgeClass(result)
  {
    LowerIdempotent(result);
    assert |Lower(result)| == |result|;
  }

  /** Every sentiment the server stores gets the badge of its own name. */
  lemma BadgeOfStoredSentiment(s: Sentiment)
    ensures BadgeClass(SentimentName(s)) == "badge " + SentimentName(s)
  {
    var name := SentimentName(s);
    assert NoUpper(name) by {
      forall i | 0 <= i < |name| ensures !('A' <= name[i] <= 'Z') {
        assert name[i] in name;
      }
    }
    LowerNormalises(name);
  }

  /** An upper-case verdict is recognised. */
  lemma BadgeUpperCase()
    ensures BadgeClass("NEGATIVE") == "badge negative"
  {
    assert Lower("NEGATIVE") == "negative";
  }

  /** Unknown and empty text are pending. */
  lemma BadgeUnknown()
    ensures BadgeClass("ecstatic") == "badge pending"
    ensures BadgeClass("") == "badge pending"
  {
    assert Lower("ecstatic") == "ecstatic";
  }

  const Anonymous: string := "Anonymous"

  /** `author_name || 'Anonymous'`: the author when there is a non-empty one. */
  function DisplayName(author: Option<string>): (name: string)
    ensures name != ""
    ensures author.Some? && author.value != "" ==> name == author.value
    ensures author.None? || author.value == "" ==> name == Anonymous
  {
    if author.Some? && author.value != "" then author.value else Anonymous
  }

  /** For a stored row the fallback is needed exactly when there is no
      author: the store never holds an empty name. */
  lemma StoredAuthorShown(st: Store, id: nat)
    requires Valid(st) && id in st.comments
    ensures var a := st.comments[id].authorName;
      DisplayName(a) == (if a.Some? then a.value else Anonymous)
  {
  }

  /** A comment submitted with a blank or missing author shows as
      "Anonymous"; with a name, it shows the trimmed name. */
  lemma SubmittedAuthorShown(st: Store, text: string, author: JsValue, topic: string, now: nat)
    requires !AllWhitespace(text) && !AllWhitespace(topic)
    requires author.Undefined? || author.Null? || author.Str?
    ensures var c := CreateComment.Create(st, CreateComment.CreateBody(Str(text), author, Str(topic)), now).0.value;
      DisplayName(c.authorName) ==
        if author.Str? && !AllWhitespace(author.s) then Trim(author.s) else Anonymous
  {
  }
}
