/** `escapeHtml` of the browser script: five `replaceAll` calls in a row,
    ampersand first. */
module Escape {

  /** `String.prototype.replaceAll` with a one-character pattern: each
      occurrence of `c` is replaced by `rep`, every other character is kept,
      so with a non-empty replacement the text never gets shorter. */
  function ReplaceAll(s: string, c: char, rep: string): (r: string)
    ensures |rep| >= 1 ==> |r| >= |s|
  {
    if s == [] then []
    else (if s[0] == c then rep else [s[0]]) + ReplaceAll(s[1..], c, rep)
  }

  /** The body of `escapeHtml` as written: the replacements in their source order. */
  function ReplaceChain(s: string): string {
    ReplaceAll(ReplaceAll(ReplaceAll(ReplaceAll(ReplaceAll(s,
      '&', "&amp;"), '<', "&lt;"), '>', "&gt;"), '"', "&quot;"), '\'', "&#39;")
  }

  /** The five characters `escapeHtml` rewrites. */
  predicate IsSpecial(c: char) {
    c == '&' || c == '<' || c == '>' || c == '"' || c == '\''
  }

  /** The entity each special character becomes; other characters stand for themselves. */
  function EscapeChar(c: char): string {
    match c
    case '&' => "&amp;"
    case '<' => "&lt;"
    case '>' => "&gt;"
    case '"' => "&quot;"
    case '\'' => "&#39;"
    case _ => [c]
  }

  /** `escapeHtml`: the replacement chain, which escapes each character on
      its own (ampersand first, so no entity is escaped twice). */
  function EscapeHtml(s: string): (r: string)
    ensures r == EscapeEach(s)
  {
    ReplaceChainIsPerCharacter(s);
    ReplaceChain(s)
  }

  /** The per-character reference definition: each character escaped on its own. */
  function EscapeEach(s: string): string {
    if s == [] then [] else EscapeChar(s[0]) + EscapeEach(s[1..])
  }

  /** A text without the pattern character comes out of `replaceAll` unchanged. */
  lemma {:induction false} ReplaceAllAbsent(s: string, c: char, rep: string)
    requires c !in s
    ensures ReplaceAll(s, c, rep) == s
  {
    if s != [] {
      assert s[0] != c;
      ReplaceAllAbsent(s[1..], c, rep);
    }
  }

  /** `replaceAll` works character by character, so it distributes over concatenation. */
  lemma {:induction false} ReplaceAllAppend(a: string, b: string, c: char, rep: string)
    ensures ReplaceAll(a + b, c, rep) == ReplaceAll(a, c, rep) + ReplaceAll(b, c, rep)
  {
    if a == [] {
      assert a + b == b;
    } else {
      var ab := a + b;
      assert ab[0] == a[0] && ab[1..] == a[1..] + b;
      ReplaceAllAppend(a[1..], b, c, rep);
    }
  }

  /** So does the whole chain. */
  lemma ReplaceChainAppend(a: string, b: string)
    ensures ReplaceChain(a + b) == ReplaceChain(a) + ReplaceChain(b)
  {
    var a1, b1 := ReplaceAll(a, '&', "&amp;"), ReplaceAll(b, '&', "&amp;");
    ReplaceAllAppend(a, b, '&', "&amp;");
    var a2, b2 := ReplaceAll(a1, '<', "&lt;"), ReplaceAll(b1, '<', "&lt;");
    ReplaceAllAppend(a1, b1, '<', "&lt;");
    var a3, b3 := ReplaceAll(a2, '>', "&gt;"), ReplaceAll(b2, '>', "&gt;");
    ReplaceAllAppend(a2, b2, '>', "&gt;");
    var a4, b4 := ReplaceAll(a3, '"', "&quot;"), ReplaceAll(b3, '"', "&quot;");
    ReplaceAllAppend(a3, b3, '"', "&quot;");
    ReplaceAllAppend(a4, b4, '\'', "&#39;");
  }

  /** `replaceAll` on a one-character string. */
  lemma ReplaceAllOne(x: char, c: char, rep: string)
    ensures ReplaceAll([x], c, rep) == if x == c then rep else [x]
  {
    assert [x][1..] == [];
  }

  /** The chain from step `k` on (1 for `&` up to 5 for `'`). */
  function ChainFrom(t: string, k: nat): string
    decreases 6 - k
  {
    if k == 0 || k > 5 then t
    else
      var (c, rep) := Step(k);
      ChainFrom(ReplaceAll(t, c, rep), k + 1)
  }

  /** The replacement made at step `k` of `escapeHtml`. */
  function Step(k: nat): (char, string)
    requires 1 <= k <= 5
  {
    if k == 1 then ('&', "&amp;")
    else if k == 2 then ('<', "&lt;")
    else if k == 3 then ('>', "&gt;")
    else if k == 4 then ('"', "&quot;")
    else ('\'', "&#39;")
  }

  /** `ChainFrom` from the first step is the chain as written. */
  lemma ChainFromStart(s: string)
    ensures ChainFrom(s, 1) == ReplaceChain(s)
  {
  }

  /** A text holding none of the characters the steps from `k` on replace
      passes through them unchanged. */
  lemma {:induction false} ChainFromUntouched(t: string, k: nat)
    requires 1 <= k
    requires forall j :: k <= j <= 5 ==> Step(j).0 !in t
    ensures ChainFrom(t, k) == t
    decreases 6 - k
  {
    if k <= 5 {
      ReplaceAllAbsent(t, Step(k).0, Step(k).1);
      ChainFromUntouched(t, k + 1);
    }
  }

  /** On one character the chain gives that character's entity: because `&`
      goes first, the ampersands the later steps introduce are never
      escaped again. */
  lemma {:induction false} ReplaceChainChar(c: char)
    ensures ReplaceChain([c]) == EscapeChar(c)
  {
    ChainFromStart([c]);
    ChainCharFrom(c, 1);
  }

  /** Steps `k` to 5 leave `c` alone when it is not theirs, and otherwise
      turn it into its entity, which no later step touches. */
  lemma {:induction false} ChainCharFrom(c: char, k: nat)
    requires 1 <= k <= 6
    requires forall j :: 1 <= j < k ==> Step(j).0 != c
    ensures ChainFrom([c], k) == EscapeChar(c)
    decreases 6 - k
  {
    if k == 6 {
      assert !IsSpecial(c) by {
        assert Step(1).0 != c && Step(2).0 != c && Step(3).0 != c && Step(4).0 != c && Step(5).0 != c;
      }
    } else {
      var (x, rep) := Step(k);
      ReplaceAllOne(c, x, rep);
      if c == x {
        assert rep == EscapeChar(c);
        forall j | k + 1 <= j <= 5 ensures Step(j).0 !in rep { }
        ChainFromUntouched(rep, k + 1);
      } else {
        ChainCharFrom(c, k + 1);
      }
    }
  }

  /** The sequential chain equals the per-character escape map. */
  lemma {:induction false} ReplaceChainIsPerCharacter(s: string)
    ensures ReplaceChain(s) == EscapeEach(s)
  {
    if s != [] {
      assert s == [s[0]] + s[1..];
      ReplaceChainAppend([s[0]], s[1..]);
      ReplaceChainChar(s[0]);
      ReplaceChainIsPerCharacter(s[1..]);
    }
  }

  /** Had `&` been replaced after any of `<`, `>`, `"` and `'`, that
      character would come out escaped twice (its entity's `&` turned into
      "&amp;"), while `escapeHtml` escapes it once. */
  lemma AmpersandOrderMatters(c: char)
    requires IsMarkup(c)
    ensures ReplaceAll(ReplaceAll([c], c, EscapeChar(c)), '&', "&amp;") == "&amp;" + EscapeChar(c)[1..]
    ensures EscapeHtml([c]) == EscapeChar(c)
  {
    var e := EscapeChar(c);
    ReplaceAllOne(c, c, e);
    assert '&' !in e[1..] by {
      if c == '<' {
        assert e[1..] == "lt;";
      } else if c == '>' {
        assert e[1..] == "gt;";
      } else if c == '"' {
        assert e[1..] == "quot;";
      } else {
        assert e[1..] == "#39;";
      }
    }
    AmpersandLeads(e);
    ReplaceChainChar(c);
  }

  /** Replacing `&` in a text whose only `&` leads it escapes that one. */
  lemma AmpersandLeads(e: string)
    requires |e| >= 1 && e[0] == '&' && '&' !in e[1..]
    ensures ReplaceAll(e, '&', "&amp;") == "&amp;" + e[1..]
  {
    assert e == ['&'] + e[1..];
    ReplaceAllAppend(['&'], e[1..], '&', "&amp;");
    ReplaceAllOne('&', '&', "&amp;");
    ReplaceAllAbsent(e[1..], '&', "&amp;");
  }

  /** A character that can open a tag or close an attribute value. */
  predicate IsMarkup(c: char) {
    c == '<' || c == '>' || c == '"' || c == '\''
  }

  /** Text with none of `<`, `>`, `"` and `'`. */
  predicate NoMarkup(t: string) {
    forall i :: 0 <= i < |t| ==> !IsMarkup(t[i])
  }

  /** The output holds none of `<`, `>`, `"` and `'`. */
  lemma EscapedHasNoMarkup(s: string)
    ensures NoMarkup(EscapeHtml(s))
  {
    EachHasNoMarkup(s);
  }

  /** The per-character escape holds no markup character. */
  lemma {:induction false} EachHasNoMarkup(s: string)
    ensures NoMarkup(EscapeEach(s))
  {
    if s != [] {
      EachHasNoMarkup(s[1..]);
      var e, rest := EscapeChar(s[0]), EscapeEach(s[1..]);
      assert NoMarkup(e);
      assert forall i :: 0 <= i < |e + rest| ==> (e + rest)[i] == if i < |e| then e[i] else rest[i - |e|];
    }
  }

  /** `t` holds `e` from position `i` on. */
  predicate OccursAt(t: string, i: nat, e: string) {
    i + |e| <= |t| && t[i..i + |e|] == e
  }

  /** One of the five entities starts at position `i` of `t`. */
  predicate EntityAt(t: string, i: nat) {
    || OccursAt(t, i, "&amp;")
    || OccursAt(t, i, "&lt;")
    || OccursAt(t, i, "&gt;")
    || OccursAt(t, i, "&quot;")
    || OccursAt(t, i, "&#39;")
  }

  /** Every `&` of `t` starts an entity. */
  predicate AmpersandsAreEntities(t: string) {
    forall i :: 0 <= i < |t| && t[i] == '&' ==> EntityAt(t, i)
  }

  /** An entity found in a piece is still there once more text is appended or prepended. */
  lemma EntityAtAppend(a: string, b: string, i: nat)
    ensures EntityAt(a, i) ==> EntityAt(a + b, i)
    ensures EntityAt(b, i) ==> EntityAt(a + b, |a| + i)
  {
    var t := a + b;
    forall e: string | OccursAt(a, i, e) ensures OccursAt(t, i, e) {
      assert t[i..i + |e|] == a[i..i + |e|];
    }
    forall e: string | OccursAt(b, i, e) ensures OccursAt(t, |a| + i, e) {
      assert t[|a| + i..|a| + i + |e|] == b[i..i + |e|];
    }
  }

  /** Two pieces whose ampersands start entities make a whole that does too. */
  lemma AmpersandsAppend(a: string, b: string)
    requires AmpersandsAreEntities(a) && AmpersandsAreEntities(b)
    ensures AmpersandsAreEntities(a + b)
  {
    var t := a + b;
    forall i | 0 <= i < |t| && t[i] == '&' ensures EntityAt(t, i) {
      if i < |a| {
        assert a[i] == '&';
        EntityAtAppend(a, b, i);
      } else {
        assert b[i - |a|] == '&';
        EntityAtAppend(a, b, i - |a|);
      }
    }
  }

  /** Each `&` of the output starts one of `&amp;`, `&lt;`, `&gt;`, `&quot;` or `&#39;`. */
  lemma {:induction false} EscapedAmpersandsAreEntities(s: string)
    ensures AmpersandsAreEntities(EscapeHtml(s))
  {
    EachAmpersandsAreEntities(s);
  }

  /** In the per-character escape every `&` starts an entity. */
  lemma {:induction false} EachAmpersandsAreEntities(s: string)
    ensures AmpersandsAreEntities(EscapeEach(s))
  {
    if s != [] {
      var e := EscapeChar(s[0]);
      assert AmpersandsAreEntities(e) by {
        if IsSpecial(s[0]) {
          assert OccursAt(e, 0, e);
        }
      }
      EachAmpersandsAreEntities(s[1..]);
      AmpersandsAppend(e, EscapeEach(s[1..]));
    }
  }

  /** Text without the five special characters comes out unchanged. */
  lemma EscapeIdentity(s: string)
    requires forall i :: 0 <= i < |s| ==> !IsSpecial(s[i])
    ensures EscapeHtml(s) == s
  {
    ChainFromStart(s);
    ChainFromUntouched(s, 1);
  }

  /** Escaping never shortens its input. */
  lemma EscapeNeverShorter(s: string)
    ensures |EscapeHtml(s)| >= |s|
  {
  }

  /** Reads the five entities back; anything else stands for itself. */
  function Unescape(t: string): string
    decreases |t|
  {
    if t == [] then []
    else if "&amp;" <= t then "&" + Unescape(t[5..])
    else if "&lt;" <= t then "<" + Unescape(t[4..])
    else if "&gt;" <= t then ">" + Unescape(t[4..])
    else if "&quot;" <= t then "\"" + Unescape(t[6..])
    else if "&#39;" <= t then "'" + Unescape(t[5..])
    else [t[0]] + Unescape(t[1..])
  }

  /** One escaped character reads back as that character. */
  lemma UnescapeChar(c: char, rest: string)
    ensures Unescape(EscapeChar(c) + rest) == [c] + Unescape(rest)
  {
    var e := EscapeChar(c);
    var t := e + rest;
    assert t[..|e|] == e && t[|e|..] == rest;
    if !IsSpecial(c) {
      assert t[0] == c && t[1..] == rest;
    } else if c == '&' {
      assert "&amp;" <= t;
    } else if c == '<' {
      assert t[1] == 'l';
      assert "&lt;" <= t;
    } else if c == '>' {
      assert t[1] == 'g';
      assert "&gt;" <= t;
    } else if c == '"' {
      assert t[1] == 'q';
      assert "&quot;" <= t;
    } else {
      assert t[1] == '#';
      assert "&#39;" <= t;
    }
  }

  /** Escaping loses nothing: the entities read back to the original text,
      so two different texts never escape to the same output. */
  lemma {:induction false} UnescapeEscape(s: string)
    ensures Unescape(EscapeHtml(s)) == s
  {
    UnescapeEach(s);
  }

  /** `Unescape` inverts the per-character escape. */
  lemma {:induction false} UnescapeEach(s: string)
    ensures Unescape(EscapeEach(s)) == s
  {
    if s != [] {
      UnescapeChar(s[0], EscapeEach(s[1..]));
      UnescapeEach(s[1..]);
      assert s == [s[0]] + s[1..];
    }
  }
}
