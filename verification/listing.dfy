/** GET /api/comments: the optional `is_analyzed` filter and the newest-first order. */
module Listing {
  import opened Wrappers
  import opened JsText
  import opened Model
  import SentimentPatch

  /** The `is_analyzed` query parameter as the handler reads it: a string
      selects rows whose flag is (`"true"` in any case) or is not (any other
      string) set; anything else, including an absent or repeated parameter,
      selects every row. */
  function AnalyzedFilter(q: JsValue): (f: Option<bool>)
    ensures f.Some? <==> q.Str?
    ensures q.Str? ==> (f.value <==> Lower(q.s) == "true")
  {
    match q
    case Str(s) => Some(Lower(s) == "true")
    case _ => None
  }

  /** A string filter reads its text by the same rule the update uses to
      coerce a string `is_analyzed`. */
  lemma FilterAgreesWithCoercion(s: string)
    ensures AnalyzedFilter(Str(s)) == SentimentPatch.CoerceFlag(Str(s))
  {
  }

  /** Whether a row passes the filter. */
  predicate Selects(f: Option<bool>, c: Comment) {
    f.None? || c.isAnalyzed == f.value
  }

  /** Rows are in `created_at` order, newest first; ties may come in any order. */
  predicate NewestFirst(rows: seq<Comment>) {
    forall i, j :: 0 <= i < j < |rows| ==> rows[i].createdAt >= rows[j].createdAt
  }

  /** No row comes twice. */
  predicate DistinctIds(rows: seq<Comment>) {
    forall i, j :: 0 <= i < j < |rows| ==> rows[i].id != rows[j].id
  }

  /** `rows` is an answer the query may give: exactly the stored rows the
      filter selects, each once, newest first. */
  ghost predicate IsListing(st: Store, f: Option<bool>, rows: seq<Comment>) {
    && NewestFirst(rows)
    && DistinctIds(rows)
    && (forall i :: 0 <= i < |rows| ==>
          rows[i].id in st.comments && st.comments[rows[i].id] == rows[i] && Selects(f, rows[i]))
    && (forall id :: id in st.comments && Selects(f, st.comments[id]) ==> st.comments[id] in rows)
  }

  /** Where `c` goes in newest-first `rows`: after every strictly newer row,
      before every row no newer than it. */
  function InsertPos(rows: seq<Comment>, c: Comment): (k: nat)
    requires NewestFirst(rows)
    ensures k <= |rows|
    ensures forall i :: 0 <= i < k ==> rows[i].createdAt > c.createdAt
    ensures forall i :: k <= i < |rows| ==> rows[i].createdAt <= c.createdAt
  {
    if rows == [] || c.createdAt >= rows[0].createdAt then 0
    else 1 + InsertPos(rows[1..], c)
  }

  /** The rows of `rows[..k] + [c] + rows[k..]`, position by position. */
  function At(rows: seq<Comment>, k: nat, c: Comment, i: nat): Comment
    requires k <= |rows| && i <= |rows|
  {
    if i < k then rows[i] else if i == k then c else rows[i - 1]
  }

  /** Splicing `c` in at `k` adds `c` and keeps every row, and `At` gives
      each position of the result. */
  lemma SpliceAt(rows: seq<Comment>, k: nat, c: Comment)
    requires k <= |rows|
    ensures var r := rows[..k] + [c] + rows[k..];
      && |r| == |rows| + 1
      && (forall i :: 0 <= i <= |rows| ==> r[i] == At(rows, k, c, i))
      && (forall x :: x in r <==> x in rows || x == c)
  {
    var r := rows[..k] + [c] + rows[k..];
    forall x | x in rows ensures x in r {
      var i :| 0 <= i < |rows| && rows[i] == x;
      if i < k { assert r[i] == x; } else { assert r[i + 1] == x; }
    }
  }

  /** Splicing at the insertion point keeps newest-first order. */
  lemma SpliceNewestFirst(rows: seq<Comment>, c: Comment)
    requires NewestFirst(rows)
    ensures NewestFirst(rows[..InsertPos(rows, c)] + [c] + rows[InsertPos(rows, c)..])
  {
    var k := InsertPos(rows, c);
    var r := rows[..k] + [c] + rows[k..];
    SpliceAt(rows, k, c);
    forall i, j | 0 <= i < j < |r| ensures r[i].createdAt >= r[j].createdAt {
      assert r[i] == At(rows, k, c, i) && r[j] == At(rows, k, c, j);
    }
  }

  /** Splicing in a row with a new id keeps the ids distinct. */
  lemma SpliceDistinct(rows: seq<Comment>, k: nat, c: Comment)
    requires k <= |rows|
    ensures DistinctIds(rows) && (forall i :: 0 <= i < |rows| ==> rows[i].id != c.id) ==>
      DistinctIds(rows[..k] + [c] + rows[k..])
  {
    var r := rows[..k] + [c] + rows[k..];
    SpliceAt(rows, k, c);
    if DistinctIds(rows) && (forall i :: 0 <= i < |rows| ==> rows[i].id != c.id) {
      forall i, j | 0 <= i < j < |r| ensures r[i].id != r[j].id {
        assert r[i] == At(rows, k, c, i) && r[j] == At(rows, k, c, j);
      }
    }
  }

  /** Puts `c` into newest-first `rows`, keeping them newest first. */
  function Insert(rows: seq<Comment>, c: Comment): (r: seq<Comment>)
    requires NewestFirst(rows)
    ensures |r| == |rows| + 1
    ensures forall x :: x in r <==> x in rows || x == c
    ensures NewestFirst(r)
    ensures DistinctIds(rows) && (forall i :: 0 <= i < |rows| ==> rows[i].id != c.id) ==> DistinctIds(r)
  {
    var k := InsertPos(rows, c);
    SpliceAt(rows, k, c);
    SpliceNewestFirst(rows, c);
    SpliceDistinct(rows, k, c);
    rows[..k] + [c] + rows[k..]
  }

  /** The GET handler. Each selected row is inserted into the answer in turn,
      keeping it newest first. */
  method List(st: Store, query: JsValue) returns (rows: seq<Comment>)
    requires Keyed(st)
    ensures IsListing(st, AnalyzedFilter(query), rows)
  {
    var f := AnalyzedFilter(query);
    var todo := set id | id in st.comments && Selects(f, st.comments[id]);
    ghost var done: set<nat> := {};
    rows := [];
    while todo != {}
      invariant todo !! done
      invariant todo + done == set id | id in st.comments && Selects(f, st.comments[id])
      invariant NewestFirst(rows) && DistinctIds(rows)
      invariant forall i :: 0 <= i < |rows| ==>
        rows[i].id in done && st.comments[rows[i].id] == rows[i] && Selects(f, rows[i])
      invariant forall id :: id in done ==> st.comments[id] in rows
      decreases todo
    {
      var id :| id in todo;
      var c := st.comments[id];
      var rows' := Insert(rows, c);
      forall i | 0 <= i < |rows'|
        ensures rows'[i].id in done + {id} && st.comments[rows'[i].id] == rows'[i] && Selects(f, rows'[i])
      {
        assert rows'[i] in rows';
        if rows'[i] != c {
          var k :| 0 <= k < |rows| && rows[k] == rows'[i];
        }
      }
      rows := rows';
      todo := todo - {id};
      done := done + {id};
    }
  }

  /** A string filter "true" in any case keeps exactly the analysed rows; any
      other string keeps exactly the unanalysed ones; no filter keeps all. */
  lemma FilterExamples(c: Comment)
    ensures Selects(AnalyzedFilter(Str("TRUE")), c) <==> c.isAnalyzed
    ensures Selects(AnalyzedFilter(Str("yes")), c) <==> !c.isAnalyzed
    ensures Selects(AnalyzedFilter(Str("false")), c) <==> !c.isAnalyzed
    ensures Selects(AnalyzedFilter(Undefined), c)
    ensures Selects(AnalyzedFilter(Composite(Some("true"))), c)
  {
  }
}
