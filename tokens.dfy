/** The rich-text tokenizer of the label engine: `parseTextToWordTokens`
    splits a field holding `**bold**` spans into word tokens, and the older
    `parseTextWithBold` splits it into plain and bold segments. */
module Tokens {
  import opened Text

  /** A `WordToken`: one word, or the inside of one `**…**` span. */
  datatype WordToken = WordToken(text: string, bold: bool)

  /** A `TextSegment`: a run of text drawn in one face. */
  datatype TextSegment = TextSegment(text: string, bold: bool)

  /** What the tokenizer promises of every token it produces: non-empty
      text without `*`, and no whitespace unless the token is bold. */
  predicate WellFormed(t: WordToken) {
    t.text != "" && NoStar(t.text) && (!t.bold ==> NoSpace(t.text))
  }

  /** The texts of the tokens, in order. */
  function Texts(ts: seq<WordToken>): (r: seq<string>)
    ensures |r| == |ts| && forall k :: 0 <= k < |ts| ==> r[k] == ts[k].text
  {
    if ts == [] then [] else Texts(ts[..|ts| - 1]) + [ts[|ts| - 1].text]
  }

  /** A character of the class `[^*\s]`. */
  predicate IsWordChar(c: char) {
    c != '*' && !IsSpace(c)
  }

  /** How much of `s` the greedy `[^*]+` (or `[^*]*`) consumes. */
  function StarFreeLen(s: string): (n: nat)
    ensures n <= |s|
    ensures forall i :: 0 <= i < n ==> s[i] != '*'
    ensures n < |s| ==> s[n] == '*'
  {
    if s == "" || s[0] == '*' then 0 else 1 + StarFreeLen(s[1..])
  }

  /** How much of `s` the greedy `[^*\s]+` (or `[^*\s]*`) consumes. */
  function WordLen(s: string): (n: nat)
    ensures n <= |s|
    ensures forall i :: 0 <= i < n ==> IsWordChar(s[i])
    ensures n < |s| ==> !IsWordChar(s[n])
  {
    if s == "" || !IsWordChar(s[0]) then 0 else 1 + WordLen(s[1..])
  }

  /** The pattern `\*\*([^*]+)\*\*` tried at the start of `s`: the length
      of the bold span found there, if any. */
  function BoldSpanAt(s: string): (n: Option<nat>)
    ensures n.Some? ==> 4 < n.value <= |s|
  {
    if |s| >= 2 && s[0] == '*' && s[1] == '*' then
      var j := 2 + StarFreeLen(s[2..]);
      if j > 2 && j + 1 < |s| && s[j + 1] == '*' then Some(j + 2) else None
    else
      None
  }

  /** A span found is `**`, a run without `*`, then `**`; where `**` opens
      the text and no span is found, the run after it is empty, runs to the
      end, or is not closed by a second `*`. */
  lemma {:induction false} BoldSpanShape(s: string)
    ensures var n := BoldSpanAt(s);
            && (n.Some? ==> s[..n.value] == "**" + s[2..n.value - 2] + "**" && NoStar(s[2..n.value - 2]))
            && (n.None? && |s| >= 2 && s[0] == '*' && s[1] == '*' ==>
                  StarFreeLen(s[2..]) == 0 || 2 + StarFreeLen(s[2..]) + 1 >= |s|
                  || s[2 + StarFreeLen(s[2..]) + 1] != '*')
  {
    if BoldSpanAt(s).Some? {
      var j := 2 + StarFreeLen(s[2..]);
      assert s[2..][j - 2] == s[j];
      assert s[2..j] == s[2..][..j - 2];
      assert forall k :: 0 <= k < j + 2 ==> s[..j + 2][k] == ("**" + s[2..j] + "**")[k];
    }
  }

  /** A match of the tokenizer's pattern: the token it yields and how many
      characters it spans. */
  datatype Match = Match(token: WordToken, len: nat)

  /** The pattern `/\*\*([^*]+)\*\*|([^*\s]+)/` tried at the start of `s`:
      first a bold span, else a run of word characters. */
  function MatchAt(s: string): (m: Option<Match>)
    ensures m.Some? ==> 0 < m.value.len <= |s|
  {
    match BoldSpanAt(s)
    case Some(n) => Some(Match(WordToken(s[2..n - 2], true), n))
    case None =>
      if s != "" && IsWordChar(s[0]) then
        var n := WordLen(s);
        Some(Match(WordToken(s[..n], false), n))
      else
        None
  }

  /** What a match covers: a bold match is the whole span with its
      markers, a plain match is a maximal run of word characters, and where
      nothing matches the text opens with `*` or whitespace. */
  lemma {:induction false} MatchAtShape(s: string)
    ensures var m := MatchAt(s);
            && (m.Some? ==> WellFormed(m.value.token))
            && (m.Some? ==> (m.value.token.bold <==> BoldSpanAt(s).Some?))
            && (m.Some? && m.value.token.bold ==> s[..m.value.len] == "**" + m.value.token.text + "**")
            && (m.Some? && !m.value.token.bold ==>
                  s[..m.value.len] == m.value.token.text && (m.value.len == |s| || !IsWordChar(s[m.value.len])))
            && (m.None? && s != "" ==> s[0] == '*' || IsSpace(s[0]))
  {
    BoldSpanShape(s);
  }

  /** Every match of the pattern, left to right, as `regex.exec` finds them:
      where nothing matches, the search moves on by one character. */
  function Scan(s: string): seq<WordToken>
    decreases |s|
  {
    if s == "" then []
    else
      match MatchAt(s)
      case Some(m) => [m.token] + Scan(s[m.len..])
      case None => Scan(s[1..])
  }

  /** Every match is a well-formed token. */
  lemma {:induction false} ScanWellFormed(s: string)
    ensures forall k :: 0 <= k < |Scan(s)| ==> WellFormed(Scan(s)[k])
    decreases |s|
  {
    if s != "" {
      var m := MatchAt(s);
      if m.Some? {
        var rest := s[m.value.len..];
        ScanWellFormed(rest);
        MatchAtShape(s);
        ScanStep(s, m.value);
        assert forall k :: 0 < k < |Scan(s)| ==> Scan(s)[k] == Scan(rest)[k - 1];
      } else {
        ScanWellFormed(s[1..]);
      }
    }
  }

  /** The punctuation pass: a token made only of `.,;:!?` is appended to the
      token before it, which keeps its bold flag. */
  function MergeTokens(ts: seq<WordToken>): seq<WordToken> {
    if ts == [] then []
    else
      var m := MergeTokens(ts[..|ts| - 1]);
      var t := ts[|ts| - 1];
      if PunctOnly(t.text) && |m| > 0 then
        m[..|m| - 1] + [WordToken(m[|m| - 1].text + t.text, m[|m| - 1].bold)]
      else
        m + [t]
  }

  /** `parseTextToWordTokens` as a function of the field's text. */
  function Tokenize(text: string): seq<WordToken> {
    MergeTokens(Scan(text))
  }

  /** `parseTextToWordTokens`: the `regex.exec` loop collects the matches,
      then the punctuation pass merges them. */
  method ParseTextToWordTokens(text: string) returns (merged: seq<WordToken>)
    ensures merged == Tokenize(text)
    ensures forall k :: 0 <= k < |merged| ==> WellFormed(merged[k])
    ensures forall k :: 1 <= k < |merged| ==> !PunctOnly(merged[k].text)
    ensures Concat(Texts(merged)) == Concat(Texts(Scan(text)))
  {
    var tokens := CollectMatches(text);
    merged := MergePunctuation(tokens);
    ScanWellFormed(text);
    MergeKeepsWellFormed(tokens);
    MergeLeavesNoLeadingPunct(tokens);
    MergeKeepsText(tokens);
  }

  /** The `regex.exec` loop of `parseTextToWordTokens`: where the pattern
      matches at `i` the match is taken, else the search moves on. */
  method CollectMatches(text: string) returns (tokens: seq<WordToken>)
    ensures tokens == Scan(text)
  {
    tokens := [];
    var i := 0;
    while i < |text|
      invariant 0 <= i <= |text|
      invariant tokens + Scan(text[i..]) == Scan(text)
      decreases |text| - i
    {
      tokens, i := ExecAt(text, i, tokens, Scan(text));
    }
    ScanEnd(text, i);
  }

  /** The pattern tried at index `i`: a match there is pushed as the next
      token and the search resumes after it; where nothing matches the
      search moves on by one character. */
  method ExecAt(text: string, i: nat, tokens: seq<WordToken>, ghost all: seq<WordToken>)
    returns (next: seq<WordToken>, j: nat)
    requires i < |text| && tokens + Scan(text[i..]) == all
    ensures i < j <= |text| && next + Scan(text[j..]) == all
  {
    var m := MatchAt(text[i..]);
    if m.Some? {
      next, j := tokens + [m.value.token], i + m.value.len;
      PushMatch(text, i, tokens, all, m.value, next, j);
    } else {
      next, j := tokens, i + 1;
      SkipChar(text, i, tokens, all, j);
    }
  }

  /** A match at `i` is pushed, and the search resumes after it. */
  lemma {:induction false} PushMatch(text: string, i: nat, tokens: seq<WordToken>, all: seq<WordToken>, m: Match,
                  next: seq<WordToken>, j: nat)
    requires i < |text| && tokens + Scan(text[i..]) == all && MatchAt(text[i..]) == Some(m)
    requires next == tokens + [m.token] && j == i + m.len
    ensures i < j <= |text| && next + Scan(text[j..]) == all
  {
    ScanFrom(text, i, m);
    AppendAssoc(tokens, [m.token], Scan(text[i + m.len..]));
  }

  /** No match at `i`: the search moves on by one character. */
  lemma {:induction false} SkipChar(text: string, i: nat, tokens: seq<WordToken>, all: seq<WordToken>, j: nat)
    requires i < |text| && tokens + Scan(text[i..]) == all && MatchAt(text[i..]).None? && j == i + 1
    ensures i < j <= |text| && tokens + Scan(text[j..]) == all
  {
    ScanSkip(text, i);
  }

  lemma {:induction false} ScanEnd(text: string, i: nat)
    requires i == |text|
    ensures Scan(text[i..]) == []
  {
    assert text[i..] == "";
  }

  lemma {:induction false} ScanFrom(text: string, i: nat, m: Match)
    requires i < |text| && MatchAt(text[i..]) == Some(m)
    ensures i + m.len <= |text| && Scan(text[i..]) == [m.token] + Scan(text[i + m.len..])
  {
    ScanStep(text[i..], m);
    assert text[i..][m.len..] == text[i + m.len..];
  }

  lemma {:induction false} ScanSkip(text: string, i: nat)
    requires i < |text| && MatchAt(text[i..]).None?
    ensures Scan(text[i..]) == Scan(text[i + 1..])
  {
    assert text[i..][1..] == text[i + 1..];
  }

  /** The punctuation pass of `parseTextToWordTokens`. */
  method MergePunctuation(tokens: seq<WordToken>) returns (merged: seq<WordToken>)
    ensures merged == MergeTokens(tokens)
  {
    merged := [];
    for k := 0 to |tokens|
      invariant merged == MergeTokens(tokens[..k])
    {
      var token := tokens[k];
      assert tokens[..k + 1][..k] == tokens[..k];
      if PunctOnly(token.text) && |merged| > 0 {
        merged := merged[..|merged| - 1]
                  + [WordToken(merged[|merged| - 1].text + token.text, merged[|merged| - 1].bold)];
      } else {
        merged := merged + [token];
      }
    }
    assert tokens[..|tokens|] == tokens;
  }

  /** Merging keeps every token well formed: punctuation has no `*` and no
      whitespace. */
  lemma {:induction false} MergeKeepsWellFormed(ts: seq<WordToken>)
    requires forall k :: 0 <= k < |ts| ==> WellFormed(ts[k])
    ensures |MergeTokens(ts)| <= |ts|
    ensures forall k :: 0 <= k < |MergeTokens(ts)| ==> WellFormed(MergeTokens(ts)[k])
    decreases |ts|
  {
    if ts != [] {
      MergeKeepsWellFormed(ts[..|ts| - 1]);
      var m := MergeTokens(ts[..|ts| - 1]);
      var t := ts[|ts| - 1];
      if PunctOnly(t.text) && |m| > 0 {
        var u := m[|m| - 1];
        var v := u.text + t.text;
        PunctClean(t.text);
        NoStarAppend(u.text, t.text);
        if !u.bold {
          NoSpaceAppend(u.text, t.text);
        }
      }
    }
  }

  lemma {:induction false} PunctClean(s: string)
    requires PunctOnly(s)
    ensures NoStar(s) && NoSpace(s)
  {
  }

  /** After merging, no token but the first consists only of punctuation, so
      punctuation never opens a later line. */
  lemma {:induction false} MergeLeavesNoLeadingPunct(ts: seq<WordToken>)
    requires forall k :: 0 <= k < |ts| ==> ts[k].text != ""
    ensures forall k :: 0 <= k < |MergeTokens(ts)| ==> MergeTokens(ts)[k].text != ""
    ensures forall k :: 1 <= k < |MergeTokens(ts)| ==> !PunctOnly(MergeTokens(ts)[k].text)
    decreases |ts|
  {
    if ts != [] {
      MergeLeavesNoLeadingPunct(ts[..|ts| - 1]);
      var m := MergeTokens(ts[..|ts| - 1]);
      var t := ts[|ts| - 1];
      if PunctOnly(t.text) && |m| > 0 && |m| > 1 {
        var u := m[|m| - 1].text;
        assert !PunctOnly(u);
        var i :| 0 <= i < |u| && !IsPunct(u[i]);
        assert (u + t.text)[i] == u[i];
      }
    }
  }

  /** Merging loses no character and changes no order. */
  lemma {:induction false} MergeKeepsText(ts: seq<WordToken>)
    ensures Concat(Texts(MergeTokens(ts))) == Concat(Texts(ts))
    decreases |ts|
  {
    if ts != [] {
      var n := |ts|;
      MergeKeepsText(ts[..n - 1]);
      var m := MergeTokens(ts[..n - 1]);
      var t := ts[n - 1];
      assert Texts(ts) == Texts(ts[..n - 1]) + [t.text];
      ConcatSnoc(Texts(ts[..n - 1]), t.text);
      if PunctOnly(t.text) && |m| > 0 {
        var u := m[|m| - 1];
        var r := m[..|m| - 1] + [WordToken(u.text + t.text, u.bold)];
        assert MergeTokens(ts) == r;
        assert r[..|m| - 1] == m[..|m| - 1];
        assert Texts(r) == Texts(m[..|m| - 1]) + [u.text + t.text];
        assert Texts(m) == Texts(m[..|m| - 1]) + [u.text];
        ConcatSnoc(Texts(m[..|m| - 1]), u.text + t.text);
        ConcatSnoc(Texts(m[..|m| - 1]), u.text);
        AppendAssoc(Concat(Texts(m[..|m| - 1])), u.text, t.text);
      } else {
        assert MergeTokens(ts) == m + [t];
        assert (m + [t])[..|m|] == m;
        ConcatSnoc(Texts(m), t.text);
      }
    }
  }

  /** The tokens the punctuation pass does not fold into an earlier one:
      the first token, and every later token that is not punctuation only. */
  function Kept(ts: seq<WordToken>): (r: seq<WordToken>)
    ensures |r| <= |ts| && (ts != [] ==> r != [])
  {
    if ts == [] then []
    else Kept(ts[..|ts| - 1]) + (if |ts| > 1 && PunctOnly(ts[|ts| - 1].text) then [] else [ts[|ts| - 1]])
  }

  /** Token `k` of `merged` has the bold flag of token `k` of `kept` and
      starts with its text. */
  predicate FlagsKept(merged: seq<WordToken>, kept: seq<WordToken>) {
    && |merged| == |kept|
    && (forall k :: 0 <= k < |kept| ==> merged[k].bold == kept[k].bold)
    && (forall k :: 0 <= k < |kept| ==> kept[k].text <= merged[k].text)
  }

  /** Punctuation is appended to the token before it, which keeps its bold
      flag: the merged tokens are the kept ones, each with its own flag and
      its own text at the front. */
  lemma {:induction false} MergeKeepsFlags(ts: seq<WordToken>)
    ensures FlagsKept(MergeTokens(ts), Kept(ts))
    decreases |ts|
  {
    if ts != [] {
      MergeKeepsFlags(ts[..|ts| - 1]);
      MergeFlagsStep(ts);
    }
  }

  lemma {:induction false} MergeFlagsStep(ts: seq<WordToken>)
    requires ts != [] && FlagsKept(MergeTokens(ts[..|ts| - 1]), Kept(ts[..|ts| - 1]))
    ensures FlagsKept(MergeTokens(ts), Kept(ts))
  {
    var init, t := ts[..|ts| - 1], ts[|ts| - 1];
    if PunctOnly(t.text) && |MergeTokens(init)| > 0 {
      MergeFlagsFold(ts);
    } else {
      MergeFlagsOpen(ts);
    }
  }

  /** Punctuation folded into the last merged token keeps its flag and the
      front of its text. */
  lemma {:induction false} MergeFlagsFold(ts: seq<WordToken>)
    requires ts != [] && FlagsKept(MergeTokens(ts[..|ts| - 1]), Kept(ts[..|ts| - 1]))
    requires PunctOnly(ts[|ts| - 1].text) && |MergeTokens(ts[..|ts| - 1])| > 0
    ensures FlagsKept(MergeTokens(ts), Kept(ts))
  {
    var init, t := ts[..|ts| - 1], ts[|ts| - 1];
    var m, kept := MergeTokens(init), Kept(init);
    var u := m[|m| - 1];
    var x := WordToken(u.text + t.text, u.bold);
    assert MergeTokens(ts) == m[..|m| - 1] + [x];
    assert Kept(ts) == kept + [];
    PrefixAppend(kept[|m| - 1].text, u.text, t.text);
    FlagsKeptReplaceLast(m, kept, x);
  }

  /** Any other token is kept as a token of its own. */
  lemma {:induction false} MergeFlagsOpen(ts: seq<WordToken>)
    requires ts != [] && FlagsKept(MergeTokens(ts[..|ts| - 1]), Kept(ts[..|ts| - 1]))
    requires !(PunctOnly(ts[|ts| - 1].text) && |MergeTokens(ts[..|ts| - 1])| > 0)
    ensures FlagsKept(MergeTokens(ts), Kept(ts))
  {
    var init, t := ts[..|ts| - 1], ts[|ts| - 1];
    var m, kept := MergeTokens(init), Kept(init);
    assert |ts| > 1 ==> init != [];
    assert MergeTokens(ts) == m + [t];
    assert Kept(ts) == kept + [t];
    FlagsKeptSnoc(m, kept, t);
  }

  lemma {:induction false} FlagsKeptReplaceLast(m: seq<WordToken>, kept: seq<WordToken>, x: WordToken)
    requires FlagsKept(m, kept) && m != []
    requires x.bold == m[|m| - 1].bold && kept[|m| - 1].text <= x.text
    ensures FlagsKept(m[..|m| - 1] + [x], kept)
  {
    var r := m[..|m| - 1] + [x];
    assert forall k :: 0 <= k < |m| - 1 ==> r[k] == m[k];
  }

  lemma {:induction false} FlagsKeptSnoc(m: seq<WordToken>, kept: seq<WordToken>, t: WordToken)
    requires FlagsKept(m, kept)
    ensures FlagsKept(m + [t], kept + [t])
  {
    assert forall k :: 0 <= k < |m| ==> (m + [t])[k] == m[k] && (kept + [t])[k] == kept[k];
  }

  lemma {:induction false} PrefixAppend(a: string, b: string, c: string)
    requires a <= b
    ensures a <= b + c
  {
    assert (b + c)[..|a|] == b[..|a|];
  }

  /** Merging leaves a token list alone when only its first token could be
      punctuation. */
  lemma {:induction false} MergeIdentity(ts: seq<WordToken>)
    requires forall k :: 1 <= k < |ts| ==> !PunctOnly(ts[k].text)
    ensures MergeTokens(ts) == ts
    decreases |ts|
  {
    if ts != [] {
      MergeIdentity(ts[..|ts| - 1]);
      assert ts[..|ts| - 1] + [ts[|ts| - 1]] == ts;
    }
  }

  // ---- The inverse of the tokenizer: writing tokens back as markup ----

  /** A token as markup: a bold token inside `**…**`, a plain one as is. */
  function Encode(t: WordToken): string {
    if t.bold then "**" + t.text + "**" else t.text
  }

  /** Tokens as markup, separated by single spaces. */
  function Render(ts: seq<WordToken>): string
    decreases |ts|
  {
    if ts == [] then ""
    else if |ts| == 1 then Encode(ts[0])
    else Encode(ts[0]) + " " + Render(ts[1..])
  }

  lemma {:induction false} MatchEncoded(t: WordToken, rest: string)
    requires WellFormed(t)
    requires rest == "" || IsSpace(rest[0])
    ensures MatchAt(Encode(t) + rest) == Some(Match(t, |Encode(t)|))
  {
    if t.bold {
      MatchBold(t, rest);
    } else {
      MatchPlain(t, rest);
    }
  }

  lemma {:induction false} MatchBold(t: WordToken, rest: string)
    requires WellFormed(t) && t.bold
    ensures MatchAt(Encode(t) + rest) == Some(Match(t, |Encode(t)|))
  {
    var x := t.text;
    var s := Encode(t) + rest;
    var y := s[2..];
    assert y == x + "**" + rest;
    StarFreeLenIs(y, |x|);
    var n := |x| + 4;
    assert BoldSpanAt(s) == Some(n);
    assert s[2..n - 2] == x by {
      assert forall i :: 0 <= i < |x| ==> s[2..n - 2][i] == y[i] == x[i];
    }
  }

  lemma {:induction false} MatchPlain(t: WordToken, rest: string)
    requires WellFormed(t) && !t.bold
    requires rest == "" || IsSpace(rest[0])
    ensures MatchAt(Encode(t) + rest) == Some(Match(t, |Encode(t)|))
  {
    var x := t.text;
    var s := Encode(t) + rest;
    assert s == x + rest;
    assert BoldSpanAt(s).None? by {
      assert s[0] == x[0];
    }
    WordLenIs(s, |x|);
    assert s[..|x|] == x;
  }

  /** The run without `*` ends at the first `*`. */
  lemma {:induction false} StarFreeLenIs(s: string, k: nat)
    requires k < |s| && s[k] == '*'
    requires forall i :: 0 <= i < k ==> s[i] != '*'
    ensures StarFreeLen(s) == k
  {
  }

  /** A run of word characters that is followed by none has that length. */
  lemma {:induction false} WordLenIs(s: string, k: nat)
    requires k <= |s|
    requires forall i :: 0 <= i < k ==> IsWordChar(s[i])
    requires k < |s| ==> !IsWordChar(s[k])
    ensures WordLen(s) == k
  {
  }

  lemma {:induction false} ScanStep(s: string, m: Match)
    requires MatchAt(s) == Some(m)
    ensures Scan(s) == [m.token] + Scan(s[m.len..])
  {
  }

  lemma {:induction false} ScanAfterSpace(c: char, s: string)
    requires IsSpace(c)
    ensures Scan([c] + s) == Scan(s)
  {
    assert ([c] + s)[1..] == s;
  }

  /** Tokenizing what `Render` writes gives back the tokens. */
  lemma {:induction false} ScanRender(ts: seq<WordToken>)
    requires forall k :: 0 <= k < |ts| ==> WellFormed(ts[k])
    ensures Scan(Render(ts)) == ts
    decreases |ts|
  {
    if |ts| == 1 {
      ScanRenderOne(ts[0]);
    } else if |ts| > 1 {
      var tail := ts[1..];
      assert forall k :: 0 <= k < |tail| ==> WellFormed(tail[k]) by {
        assert forall k :: 0 <= k < |tail| ==> tail[k] == ts[k + 1];
      }
      ScanRender(tail);
      ScanRenderCons(ts);
    }
  }

  lemma {:induction false} ScanRenderOne(t: WordToken)
    requires WellFormed(t)
    ensures Scan(Render([t])) == [t]
  {
    var s := Encode(t);
    assert s + "" == s;
    MatchEncoded(t, "");
    ScanStep(s, Match(t, |s|));
    assert s[|s|..] == "";
  }

  /** One more token in front of a tail that already comes back. */
  lemma {:induction false} ScanRenderCons(ts: seq<WordToken>)
    requires |ts| > 1 && WellFormed(ts[0])
    requires Scan(Render(ts[1..])) == ts[1..]
    ensures Scan(Render(ts)) == ts
  {
    var tail := Render(ts[1..]);
    var rest := " " + tail;
    var e := Encode(ts[0]);
    var s := e + rest;
    assert Render(ts) == s;
    MatchEncoded(ts[0], rest);
    ScanStep(s, Match(ts[0], |e|));
    assert s[|e|..] == rest;
    ScanAfterSpace(' ', tail);
    assert ts == [ts[0]] + ts[1..];
  }

  /** The round trip of the tokenizer: well-formed tokens of which none but
      the first is bare punctuation come back unchanged from their markup,
      bold flags included. */
  lemma {:induction false} TokenizeRender(ts: seq<WordToken>)
    requires forall k :: 0 <= k < |ts| ==> WellFormed(ts[k])
    requires forall k :: 1 <= k < |ts| ==> !PunctOnly(ts[k].text)
    ensures Tokenize(Render(ts)) == ts
  {
    ScanRender(ts);
    MergeIdentity(ts);
  }

  // ---- Stray asterisks ----

  /** The characters of `s` matched by `[^*\s]`, in order. */
  function WordChars(s: string): string
    decreases |s|
  {
    if s == "" then "" else (if IsWordChar(s[0]) then [s[0]] else "") + WordChars(s[1..])
  }

  lemma {:induction false} WordCharsRun(s: string, n: nat)
    requires n <= |s|
    requires forall i :: 0 <= i < n ==> IsWordChar(s[i])
    ensures WordChars(s) == s[..n] + WordChars(s[n..])
    decreases n
  {
    if n > 0 {
      WordCharsRun(s[1..], n - 1);
      assert s[1..][n - 1..] == s[n..];
      assert [s[0]] + s[1..][..n - 1] == s[..n];
    }
  }

  /** No `**…**` span matches anywhere in `s`. */
  predicate NoSpanMatch(s: string) {
    forall i :: 0 <= i <= |s| ==> BoldSpanAt(s[i..]).None?
  }

  lemma {:induction false} NoSpanMatchDrop(s: string, k: nat)
    requires NoSpanMatch(s) && k <= |s|
    ensures NoSpanMatch(s[k..])
  {
    var t := s[k..];
    forall i | 0 <= i <= |t|
      ensures BoldSpanAt(t[i..]).None?
    {
      assert t[i..] == s[k + i..];
    }
  }

  /** Where no bold span matches, stray or unpaired asterisks are dropped
      like whitespace: nothing is bold, and the tokens hold exactly the
      other non-space characters, in order (so `**abc def` gives the plain
      words `abc` and `def`). */
  lemma {:induction false} ScanWithoutSpans(s: string)
    requires NoSpanMatch(s)
    ensures NoBold(Scan(s))
    ensures Concat(Texts(Scan(s))) == WordChars(s)
    decreases |s|
  {
    if s != "" {
      assert BoldSpanAt(s[0..]).None?;
      assert s[0..] == s;
      var m := MatchAt(s);
      if m.Some? {
        NoSpanMatchDrop(s, m.value.len);
        ScanWithoutSpans(s[m.value.len..]);
        WordRunStep(s, m.value);
      } else {
        NoSpanMatchDrop(s, 1);
        ScanWithoutSpans(s[1..]);
        SkipStep(s);
      }
    }
  }

  /** Text in which no two asterisks stand side by side has no bold span. */
  lemma {:induction false} NoPairNoSpan(s: string)
    requires forall i :: 0 <= i < |s| - 1 ==> !(s[i] == '*' && s[i + 1] == '*')
    ensures NoSpanMatch(s)
  {
    forall i | 0 <= i <= |s|
      ensures BoldSpanAt(s[i..]).None?
    {
      if |s[i..]| >= 2 {
        assert s[i..][0] == s[i] && s[i..][1] == s[i + 1];
      }
    }
  }

  /** A character nothing matches at is dropped by both sides. */
  lemma {:induction false} SkipStep(s: string)
    requires s != "" && MatchAt(s).None?
    ensures Scan(s) == Scan(s[1..])
    ensures WordChars(s) == WordChars(s[1..])
  {
    MatchAtShape(s);
  }

  /** No token is bold. */
  predicate NoBold(ts: seq<WordToken>) {
    forall k :: 0 <= k < |ts| ==> !ts[k].bold
  }

  /** A plain word match in front of a suffix that keeps the two facts
      keeps them for the whole text. */
  lemma {:induction false} WordRunStep(s: string, m: Match)
    requires MatchAt(s) == Some(m) && BoldSpanAt(s).None?
    requires NoBold(Scan(s[m.len..])) && Concat(Texts(Scan(s[m.len..]))) == WordChars(s[m.len..])
    ensures NoBold(Scan(s)) && Concat(Texts(Scan(s))) == WordChars(s)
  {
    ScanStep(s, m);
    PlainMatch(s, m);
    PlainCons(m.token, Scan(s[m.len..]), WordChars(s[m.len..]));
  }

  lemma {:induction false} PlainCons(t: WordToken, ts: seq<WordToken>, rest: string)
    requires !t.bold && NoBold(ts) && Concat(Texts(ts)) == rest
    ensures NoBold([t] + ts) && Concat(Texts([t] + ts)) == t.text + rest
  {
    TextsCons(t, ts);
    ConcatCons(t.text, Texts(ts));
    assert forall k :: 0 < k <= |ts| ==> ([t] + ts)[k] == ts[k - 1];
  }

  /** A plain match takes the leading run of word characters. */
  lemma {:induction false} PlainMatch(s: string, m: Match)
    requires MatchAt(s) == Some(m) && BoldSpanAt(s).None?
    ensures !m.token.bold && WordChars(s) == m.token.text + WordChars(s[m.len..])
  {
    MatchAtShape(s);
    WordCharsRun(s, m.len);
  }

  lemma {:induction false} TextsCons(t: WordToken, ts: seq<WordToken>)
    ensures Texts([t] + ts) == [t.text] + Texts(ts)
  {
    assert forall k :: 0 < k <= |ts| ==> ([t] + ts)[k] == ts[k - 1];
  }

  /** Text without `*` followed by text opening with whitespace tokenizes
      as the two parts apart: a prefix such as a section header cannot
      change how the field after it is read. */
  lemma {:induction false} ScanSplitsAtSpace(a: string, b: string)
    requires NoStar(a)
    requires b != "" && IsSpace(b[0])
    ensures Scan(a + b) == Scan(a) + Scan(b)
    decreases |a|, 1
  {
    if a == "" {
      assert a + b == b;
    } else if IsSpace(a[0]) {
      var s := a + b;
      assert s[0] == a[0];
      assert BoldSpanAt(s).None? && BoldSpanAt(a).None?;
      assert s[1..] == a[1..] + b;
      ScanSplitsAtSpace(a[1..], b);
    } else {
      WordThenSpace(a, b);
    }
  }

  lemma {:induction false} WordThenSpace(a: string, b: string)
    requires NoStar(a) && a != "" && !IsSpace(a[0])
    requires b != "" && IsSpace(b[0])
    ensures Scan(a + b) == Scan(a) + Scan(b)
    decreases |a|, 0
  {
    var m := MatchWordBeforeSpace(a, b);
    var n := m.len;
    ScanStep(a + b, m);
    ScanStep(a, m);
    DropAppend(a, b, n);
    ScanSplitsAtSpace(a[n..], b);
    AppendAssoc([m.token], Scan(a[n..]), Scan(b));
  }

  lemma {:induction false} MatchWordBeforeSpace(a: string, b: string) returns (m: Match)
    requires NoStar(a) && a != "" && !IsSpace(a[0])
    requires b != "" && IsSpace(b[0])
    ensures MatchAt(a + b) == Some(m) && MatchAt(a) == Some(m)
    ensures 0 < m.len <= |a|
  {
    var s := a + b;
    var n := WordLen(a);
    assert s[0] == a[0] && IsWordChar(s[0]);
    assert BoldSpanAt(s).None? && BoldSpanAt(a).None?;
    assert forall i :: 0 <= i < n ==> s[i] == a[i];
    assert n < |a| ==> s[n] == a[n];
    assert n == |a| ==> s[n] == b[0];
    assert WordLen(s) == n;
    assert s[..n] == a[..n];
    m := Match(WordToken(a[..n], false), n);
  }

  // ---- parseTextWithBold (the older splitter, unused by the engine) ----

  /** Where a bold span `**…**` starts and how many characters it spans. */
  datatype Span = Span(start: nat, len: nat) {
    /** The position just after the span. */
    function End(): nat {
      start + len
    }
  }

  /** The first `*` at or after `j` (or the end): the greedy `[^*]+` run in
      absolute positions. */
  function StarFrom(text: string, j: nat): (k: nat)
    requires j <= |text|
    ensures j <= k <= |text| && (k < |text| ==> text[k] == '*')
    ensures forall i :: j <= i < k ==> text[i] != '*'
    decreases |text| - j
  {
    if j == |text| || text[j] == '*' then j else StarFrom(text, j + 1)
  }

  /** `BoldSpanAt` in absolute positions: the length of the bold span that
      starts at `i`, if one does. */
  function SpanAt(text: string, i: nat): (n: Option<nat>)
    requires i <= |text|
    ensures n.Some? ==> 4 < n.value && i + n.value <= |text|
  {
    if i + 1 < |text| && text[i] == '*' && text[i + 1] == '*' then
      var j := StarFrom(text, i + 2);
      if j > i + 2 && j + 1 < |text| && text[j + 1] == '*' then Some(j + 2 - i) else None
    else
      None
  }

  lemma {:induction false} StarFromLen(text: string, j: nat)
    requires j <= |text|
    ensures StarFrom(text, j) == j + StarFreeLen(text[j..])
    decreases |text| - j
  {
    if j < |text| && text[j] != '*' {
      assert text[j..][1..] == text[j + 1..];
      StarFromLen(text, j + 1);
    }
  }

  /** The tokenizer's test at the start of a suffix and the splitter's test
      at an absolute position agree. */
  lemma {:induction false} SpanAtAgrees(text: string, i: nat)
    requires i <= |text|
    ensures SpanAt(text, i) == BoldSpanAt(text[i..])
  {
    if i + 1 < |text| {
      var s := text[i..];
      assert s[2..] == text[i + 2..];
      StarFromLen(text, i + 2);
    }
  }

  // `regex.exec` for the global bold pattern with `lastIndex == from`: the
  // leftmost bold span at or after `from`.
  function FindBold(text: string, from: nat): (r: Option<Span>)
    requires from <= |text|
    ensures r.Some? ==> from <= r.value.start && r.value.End() <= |text|
    ensures r.Some? ==> 4 < r.value.len
  {
    SearchBold(text, from)
  }

  /** The search behind `FindBold`, one position at a time. */
  function SearchBold(text: string, from: nat): (r: Option<Span>)
    requires from <= |text|
    ensures r.Some? ==> from <= r.value.start && r.value.End() <= |text|
    ensures r.Some? ==> 4 < r.value.len
    decreases |text| - from
  {
    if from == |text| then None
    else match SpanAt(text, from)
      case Some(n) => Some(Span(from, n))
      case None => SearchBold(text, from + 1)
  }

  /** The span `FindBold` finds, when it finds one. */
  function Found(text: string, from: nat): Span
    requires from <= |text| && FindBold(text, from).Some?
  {
    FindBold(text, from).value
  }

  /** `FindBold` reports a span that is there. */
  lemma {:induction false} FindBoldSpan(text: string, from: nat)
    requires from <= |text| && FindBold(text, from).Some?
    ensures SpanAt(text, Found(text, from).start) == Some(Found(text, from).len)
    decreases |text| - from
  {
    if SpanAt(text, from).None? {
      FindBoldSpan(text, from + 1);
    }
  }

  /** The span `FindBold` reports is the leftmost one at or after `from`, and
      when it reports none there is none. */
  lemma {:induction false} FindBoldLeftmost(text: string, from: nat, i: nat)
    requires from <= i < |text|
    ensures FindBold(text, from).None? ==> BoldSpanAt(text[i..]).None?
    ensures FindBold(text, from).Some? && i < FindBold(text, from).value.start ==> BoldSpanAt(text[i..]).None?
    decreases |text| - from
  {
    SpanAtAgrees(text, i);
    if SpanAt(text, from).Some? {
      FindBoldHit(text, from);
    } else if i > from {
      FindBoldLeftmost(text, from + 1, i);
      FindBoldMiss(text, from);
    }
  }

  /** A span at `from` is the one found. */
  lemma {:induction false} FindBoldHit(text: string, from: nat)
    requires from < |text| && SpanAt(text, from).Some?
    ensures FindBold(text, from) == Some(Span(from, SpanAt(text, from).value))
  {
  }

  /** Without a span at `from` the search goes on from the next position. */
  lemma {:induction false} FindBoldMiss(text: string, from: nat)
    requires from < |text| && SpanAt(text, from).None?
    ensures FindBold(text, from) == FindBold(text, from + 1)
  {
  }

  /** A reported span is `**`, a run without `*`, then `**`. */
  lemma {:induction false} SpanShape(text: string, sp: Span)
    requires sp.End() <= |text| && SpanAt(text, sp.start) == Some(sp.len)
    ensures "**" + text[sp.start + 2..sp.End() - 2] + "**" == text[sp.start..sp.End()]
    ensures NoStar(text[sp.start + 2..sp.End() - 2])
  {
    var i, e := sp.start, sp.End();
    var j := StarFrom(text, i + 2);
    assert j == e - 2;
    var inner := text[i + 2..j];
    assert NoStar(inner) by {
      assert forall x :: 0 <= x < |inner| ==> inner[x] == text[i + 2 + x];
    }
    Glue(text, i, i + 2, j);
    Glue(text, i, j, e);
    assert text[i..i + 2] == "**";
    assert text[j..e] == "**";
  }

  /** `parseTextWithBold` as a function of the resume index `from`: the plain
      text up to the next bold span, the span's inside as a bold segment, and
      the same again after the span; the rest as plain text when no span is
      left. */
  function BoldSplit(text: string, from: nat): seq<TextSegment>
    requires from <= |text|
  {
    SplitSpans(text, from)
  }

  /** The recursion behind `BoldSplit`, one span at a time. */
  function SplitSpans(text: string, from: nat): seq<TextSegment>
    requires from <= |text|
    decreases |text| - from
  {
    match FindBold(text, from)
    case None => PlainPart(text[from..])
    case Some(sp) =>
      PlainPart(text[from..sp.start]) + [BoldPart(text, sp)] + SplitSpans(text, sp.End())
  }

  /** The plain segment for `text`, unless `text` is empty. */
  function PlainPart(text: string): seq<TextSegment> {
    if text != "" then [TextSegment(text, false)] else []
  }

  /** The bold segment for the span `sp`: the text between its markers. */
  function BoldPart(text: string, sp: Span): TextSegment
    requires 4 < sp.len && sp.End() <= |text|
  {
    TextSegment(text[sp.start + 2..sp.End() - 2], true)
  }

  /** A segment written back as markup. */
  function Markup(seg: TextSegment): string {
    if seg.bold then "**" + seg.text + "**" else seg.text
  }

  /** Segments written back as markup. */
  function Unparse(segs: seq<TextSegment>): string {
    Markups(segs)
  }

  /** The recursion behind `Unparse`, one segment at a time. */
  function Markups(segs: seq<TextSegment>): string
    decreases |segs|
  {
    if segs == [] then "" else Markup(segs[0]) + Markups(segs[1..])
  }

  lemma {:induction false} UnparseAppend(a: seq<TextSegment>, b: seq<TextSegment>)
    ensures Unparse(a + b) == Unparse(a) + Unparse(b)
    decreases |a|
  {
    if a == [] {
      assert a + b == b;
    } else {
      assert (a + b)[0] == a[0];
      assert (a + b)[1..] == a[1..] + b;
      UnparseAppend(a[1..], b);
      assert Unparse(a + b) == Markup(a[0]) + Unparse(a[1..] + b);
      assert Unparse(a) == Markup(a[0]) + Unparse(a[1..]);
      assert Markup(a[0]) + (Unparse(a[1..]) + Unparse(b)) == (Markup(a[0]) + Unparse(a[1..])) + Unparse(b);
    }
  }

  lemma {:induction false} UnparsePlain(t: string)
    ensures Unparse(PlainPart(t)) == t
  {
    if t != "" {
      var segs := [TextSegment(t, false)];
      assert segs[1..] == [];
      assert Markups(segs) == Markup(segs[0]) + Markups([]);
    }
  }

  lemma {:induction false} UnparseBold(t: string)
    ensures Unparse([TextSegment(t, true)]) == "**" + t + "**"
  {
    var segs := [TextSegment(t, true)];
    assert segs[1..] == [];
    assert Markups(segs) == Markup(segs[0]) + Markups([]);
  }

  /** The older splitter loses nothing: writing its segments back as markup
      gives the input again. */
  lemma {:induction false} BoldSplitRoundTrip(text: string, from: nat)
    requires from <= |text|
    ensures Unparse(BoldSplit(text, from)) == text[from..]
    decreases |text| - from, 1
  {
    if FindBold(text, from).None? {
      RoundTripRest(text, from);
    } else {
      RoundTripCase(text, from);
    }
  }

  /** The round trip from `from` where a span is found: the round trip
      after the span, then the plain text and the span's markup in front. */
  lemma {:induction false} RoundTripCase(text: string, from: nat)
    requires from <= |text| && FindBold(text, from).Some?
    ensures Unparse(BoldSplit(text, from)) == text[from..]
    decreases |text| - from, 0
  {
    var sp := Found(text, from);
    var rest := BoldSplit(text, sp.End());
    BoldSplitRoundTrip(text, sp.End());
    UnparseStep(text, from);
    RoundTripAt(text, from, rest);
    Transit(Unparse(BoldSplit(text, from)),
            Unparse(PlainPart(text[from..sp.start]) + [BoldPart(text, sp)] + rest),
            text[from..]);
  }

  lemma {:induction false} Transit(a: string, b: string, c: string)
    requires a == b && b == c
    ensures a == c
  {
  }

  /** Where no span is left, the rest is one plain segment. */
  lemma {:induction false} RoundTripRest(text: string, from: nat)
    requires from <= |text| && FindBold(text, from).None?
    ensures Unparse(BoldSplit(text, from)) == text[from..]
  {
    UnparsePlain(text[from..]);
  }

  /** The step of the round trip where a span is found: the plain text
      before it, the span's markup and the rest give back the suffix. */
  lemma {:induction false} RoundTripAt(text: string, from: nat, rest: seq<TextSegment>)
    requires from <= |text| && FindBold(text, from).Some?
    requires Unparse(rest) == text[Found(text, from).End()..]
    ensures var sp := Found(text, from);
            Unparse(PlainPart(text[from..sp.start]) + [BoldPart(text, sp)] + rest) == text[from..]
  {
    var sp := Found(text, from);
    var front := PlainPart(text[from..sp.start]) + [BoldPart(text, sp)];
    var x, y := text[from..sp.End()], text[sp.End()..];
    assert Unparse(front) == x by {
      FindBoldSpan(text, from);
      FrontMarkup(text, from, sp);
    }
    assert x + y == text[from..] by { GlueRest(text, from, sp.End()); }
    UnparseJoin(front, rest, x, y, text[from..]);
  }

  /** The markup of the split from `from`, where a span is found. */
  lemma {:induction false} UnparseStep(text: string, from: nat)
    requires from <= |text| && FindBold(text, from).Some?
    ensures var sp := Found(text, from);
            Unparse(BoldSplit(text, from))
            == Unparse(PlainPart(text[from..sp.start]) + [BoldPart(text, sp)] + BoldSplit(text, sp.End()))
  {
    BoldSplitStep(text, from);
  }

  /** The plain text before a span and the span's markup give back the
      text up to the span's end. */
  lemma {:induction false} FrontMarkup(text: string, from: nat, sp: Span)
    requires from <= sp.start && sp.End() <= |text| && SpanAt(text, sp.start) == Some(sp.len)
    ensures Unparse(PlainPart(text[from..sp.start]) + [BoldPart(text, sp)]) == text[from..sp.End()]
  {
    var plain, bold := PlainPart(text[from..sp.start]), [BoldPart(text, sp)];
    var x, y := text[from..sp.start], text[sp.start..sp.End()];
    assert Unparse(plain) == x by { UnparsePlain(x); }
    assert Unparse(bold) == y by { UnparseBoldPart(text, sp); }
    assert x + y == text[from..sp.End()] by { Glue(text, from, sp.start, sp.End()); }
    UnparseJoin(plain, bold, x, y, text[from..sp.End()]);
  }

  /** Two parts that give back two adjacent pieces give back the whole. */
  lemma {:induction false} UnparseJoin(a: seq<TextSegment>, b: seq<TextSegment>, x: string, y: string, whole: string)
    requires Unparse(a) == x && Unparse(b) == y && x + y == whole
    ensures Unparse(a + b) == whole
  {
    UnparseAppend(a, b);
  }

  lemma {:induction false} UnparseBoldPart(text: string, sp: Span)
    requires sp.End() <= |text| && SpanAt(text, sp.start) == Some(sp.len)
    ensures Unparse([BoldPart(text, sp)]) == text[sp.start..sp.End()]
  {
    SpanShape(text, sp);
    UnparseBold(BoldPart(text, sp).text);
  }

  /** One step of `BoldSplit` where a span is found. */
  lemma {:induction false} BoldSplitStep(text: string, from: nat)
    requires from <= |text| && FindBold(text, from).Some?
    ensures var sp := Found(text, from);
            BoldSplit(text, from)
            == PlainPart(text[from..sp.start]) + [BoldPart(text, sp)] + BoldSplit(text, sp.End())
  {
  }

  /** No segment is empty, and a bold one holds no `*`. */
  predicate CleanSegments(segs: seq<TextSegment>) {
    forall k :: 0 <= k < |segs| ==> segs[k].text != "" && (segs[k].bold ==> NoStar(segs[k].text))
  }

  /** The older splitter's segments are non-empty, and bold ones hold no `*`. */
  lemma {:induction false} BoldSplitSegments(text: string, from: nat)
    requires from <= |text|
    ensures CleanSegments(BoldSplit(text, from))
    decreases |text| - from
  {
    if FindBold(text, from).None? {
      CleanPlain(text[from..]);
    } else {
      var sp := Found(text, from);
      BoldSplitSegments(text, sp.End());
      CleanStep(text, from);
    }
  }

  lemma {:induction false} CleanStep(text: string, from: nat)
    requires from <= |text| && FindBold(text, from).Some?
    requires CleanSegments(BoldSplit(text, Found(text, from).End()))
    ensures CleanSegments(BoldSplit(text, from))
  {
    var sp := Found(text, from);
    BoldSplitStep(text, from);
    FindBoldSpan(text, from);
    CleanBold(text, sp);
    CleanPlain(text[from..sp.start]);
    CleanJoin(PlainPart(text[from..sp.start]), BoldPart(text, sp), BoldSplit(text, sp.End()));
  }

  lemma {:induction false} CleanPlain(t: string)
    ensures CleanSegments(PlainPart(t))
  {
  }

  lemma {:induction false} CleanBold(text: string, sp: Span)
    requires sp.End() <= |text| && SpanAt(text, sp.start) == Some(sp.len)
    ensures CleanSegments([BoldPart(text, sp)])
  {
    SpanShape(text, sp);
  }

  lemma {:induction false} CleanJoin(a: seq<TextSegment>, b: TextSegment, c: seq<TextSegment>)
    requires CleanSegments(a) && CleanSegments([b]) && CleanSegments(c)
    ensures CleanSegments(a + [b] + c)
  {
    var r := a + [b] + c;
    assert forall k :: |a| + 1 <= k < |r| ==> r[k] == c[k - |a| - 1];
  }

  /** `parseTextWithBold`: plain text before each bold span, the span's inside
      as a bold segment, then whatever follows the last span. */
  method ParseTextWithBold(text: string) returns (segments: seq<TextSegment>)
    ensures segments == BoldSplit(text, 0)
  {
    segments := [];
    var lastIndex: nat := 0;
    var found := FindBold(text, 0);
    while found.Some?
      invariant lastIndex <= |text|
      invariant found == FindBold(text, lastIndex)
      invariant segments + BoldSplit(text, lastIndex) == BoldSplit(text, 0)
      decreases |text| - lastIndex
    {
      var sp := found.value;
      ghost var before := segments;
      BoldSplitStep(text, lastIndex);
      segments := PushSpan(segments, text, lastIndex, sp);
      Regroup(before, PlainPart(text[lastIndex..sp.start]) + [BoldPart(text, sp)], segments,
              BoldSplit(text, sp.End()), BoldSplit(text, lastIndex), BoldSplit(text, 0));
      lastIndex := sp.End();
      found := FindBold(text, lastIndex);
    }
    FinalPart(text, lastIndex, segments);
    if lastIndex < |text| {
      segments := segments + [TextSegment(text[lastIndex..], false)];
    }
  }

  /** The body of the `exec` loop: the plain text between the previous span
      and this one, if there is any, then the span's inside in bold. */
  method PushSpan(segments: seq<TextSegment>, text: string, lastIndex: nat, sp: Span)
    returns (r: seq<TextSegment>)
    requires lastIndex <= sp.start && 4 < sp.len && sp.End() <= |text|
    ensures r == segments + (PlainPart(text[lastIndex..sp.start]) + [BoldPart(text, sp)])
  {
    r := segments;
    if sp.start > lastIndex {
      r := r + [TextSegment(text[lastIndex..sp.start], false)];
    }
    r := r + [TextSegment(text[sp.start + 2..sp.End() - 2], true)];
  }

  lemma {:induction false} FinalPart(text: string, from: nat, done: seq<TextSegment>)
    requires from <= |text| && FindBold(text, from).None? && done + BoldSplit(text, from) == BoldSplit(text, 0)
    ensures done + PlainPart(text[from..]) == BoldSplit(text, 0)
  {
  }

  lemma {:induction false} Regroup<T>(done: seq<T>, piece: seq<T>, done': seq<T>, rest: seq<T>, cur: seq<T>, whole: seq<T>)
    requires done + cur == whole && cur == piece + rest && done' == done + piece
    ensures done' + rest == whole
  {
  }
}
