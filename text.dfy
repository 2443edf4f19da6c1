/** Character classes and string helpers shared by the tokenizer and both
    line wrappers: the ECMAScript `\s` class, the `[.,;:!?]` punctuation
    class, `Array.prototype.join(" ")` and `String.prototype.split(/\s+/)`. */
module Text {

  datatype Option<T> = None | Some(value: T)

  /** A font face's `widthOfTextAtSize`: the advance width in points of a
      string at a size given in quarter points. */
  type Face = (string, int) -> real

  /** ECMAScript `\s`: the WhiteSpace and LineTerminator code points. */
  predicate IsSpace(c: char) {
    c == ' ' || c == '\t' || c == '\n' || c == '\r' || c == '\U{000B}' || c == '\U{000C}'
    || c == '\U{00A0}' || c == '\U{1680}' || ('\U{2000}' <= c <= '\U{200A}')
    || c == '\U{2028}' || c == '\U{2029}' || c == '\U{202F}' || c == '\U{205F}'
    || c == '\U{3000}' || c == '\U{FEFF}'
  }

  /** One character of the class `[.,;:!?]`. */
  predicate IsPunct(c: char) {
    c == '.' || c == ',' || c == ';' || c == ':' || c == '!' || c == '?'
  }

  /** The test `/^[.,;:!?]+$/`: non-empty and made of punctuation only. */
  predicate PunctOnly(s: string) {
    |s| > 0 && forall i :: 0 <= i < |s| ==> IsPunct(s[i])
  }

  predicate NoSpace(s: string) {
    forall i :: 0 <= i < |s| ==> !IsSpace(s[i])
  }

  predicate NoStar(s: string) {
    forall i :: 0 <= i < |s| ==> s[i] != '*'
  }

  /** `ws.join(" ")`. */
  function JoinSp(ws: seq<string>): string {
    if |ws| == 0 then ""
    else if |ws| == 1 then ws[0]
    else JoinSp(ws[..|ws| - 1]) + " " + ws[|ws| - 1]
  }

  /** The strings of `ss`, one after the other. */
  function Concat(ss: seq<string>): string {
    if ss == [] then "" else Concat(ss[..|ss| - 1]) + ss[|ss| - 1]
  }

  /** `s` with every whitespace character taken out. */
  function RemoveSpaces(s: string): string {
    if s == "" then ""
    else RemoveSpaces(s[..|s| - 1]) + (if IsSpace(s[|s| - 1]) then "" else [s[|s| - 1]])
  }

  /** `s` with every maximal run of whitespace replaced by one space. */
  function CollapseSpaces(s: string): string {
    if s == "" then ""
    else if !IsSpace(s[|s| - 1]) then CollapseSpaces(s[..|s| - 1]) + [s[|s| - 1]]
    else if |s| >= 2 && IsSpace(s[|s| - 2]) then CollapseSpaces(s[..|s| - 1])
    else CollapseSpaces(s[..|s| - 1]) + " "
  }

  /** `s.split(/\s+/)`: the pieces between maximal runs of whitespace. A run
      at the start or the end leaves an empty first or last piece, and the
      empty string gives one empty piece (`SplitWsPieces`). */
  function SplitWs(s: string): (r: seq<string>)
    ensures |r| >= 1
  {
    if s == "" then [""]
    else
      var r := SplitWs(s[..|s| - 1]);
      var c := s[|s| - 1];
      if IsSpace(c) then
        if |s| >= 2 && IsSpace(s[|s| - 2]) then r else r + [""]
      else
        r[..|r| - 1] + [r[|r| - 1] + [c]]
  }

  /** `r` is how `split(/\s+/)` cuts `s`: pieces without whitespace, only
      the first and the last possibly empty, the first (last) empty exactly
      when `s` starts (ends) with whitespace or is empty, a single piece only
      for text without whitespace, and together the pieces hold exactly the
      text's other characters, in order. Joined by single spaces they give
      the text with each whitespace run collapsed to one space, which fixes
      where the cuts fall (`PiecesUnique`). */
  predicate Pieces(s: string, r: seq<string>) {
    PiecesShape(s, r) && Concat(r) == RemoveSpaces(s) && JoinSp(r) == CollapseSpaces(s)
  }

  /** `Pieces` without the statement about the characters. */
  predicate PiecesShape(s: string, r: seq<string>) {
    && |r| >= 1
    && (forall k :: 0 <= k < |r| ==> NoSpace(r[k]))
    && (forall k :: 0 < k < |r| - 1 ==> r[k] != "")
    && ((r[0] == "") == (s == "" || IsSpace(s[0])))
    && ((r[|r| - 1] == "") == (s == "" || IsSpace(s[|s| - 1])))
    && (|r| == 1 ==> NoSpace(s))
    && (s == "" ==> |r| == 1)
  }

  lemma {:induction false} SplitWsPieces(s: string)
    ensures Pieces(s, SplitWs(s))
    decreases |s|
  {
    if s == "" {
      assert Concat([""]) == Concat([]) + "";
    } else {
      SplitWsPieces(s[..|s| - 1]);
      SplitWsStep(s);
    }
  }

  /** One more character on the right keeps `Pieces`. */
  lemma {:induction false} SplitWsStep(s: string)
    requires s != "" && Pieces(s[..|s| - 1], SplitWs(s[..|s| - 1]))
    ensures Pieces(s, SplitWs(s))
  {
    var p, c := s[..|s| - 1], s[|s| - 1];
    var r := SplitWs(p);
    LastSplit(s);
    if IsSpace(c) {
      assert SplitWs(s) == if |p| >= 1 && IsSpace(p[|p| - 1]) then r else r + [""];
      PiecesSpace(p, c, r);
    } else {
      assert SplitWs(s) == r[..|r| - 1] + [r[|r| - 1] + [c]];
      PiecesChar(p, c, r);
    }
  }

  /** A whitespace character extends the last run or starts a new one. */
  lemma {:induction false} PiecesSpace(p: string, c: char, r: seq<string>)
    requires IsSpace(c) && Pieces(p, r)
    ensures Pieces(p + [c], if |p| >= 1 && IsSpace(p[|p| - 1]) then r else r + [""])
  {
    if |p| >= 1 && IsSpace(p[|p| - 1]) {
      PiecesSpaceRun(p, c, r);
    } else {
      PiecesSpaceOpen(p, c, r);
    }
  }

  lemma {:induction false} PiecesSpaceRun(p: string, c: char, r: seq<string>)
    requires IsSpace(c) && Pieces(p, r) && |p| >= 1 && IsSpace(p[|p| - 1])
    ensures Pieces(p + [c], r)
  {
    assert (p + [c])[..|p|] == p;
    assert CollapseSpaces(p + [c]) == CollapseSpaces(p);
  }

  lemma {:induction false} PiecesSpaceOpen(p: string, c: char, r: seq<string>)
    requires IsSpace(c) && Pieces(p, r) && !(|p| >= 1 && IsSpace(p[|p| - 1]))
    ensures Pieces(p + [c], r + [""])
  {
    assert (p + [c])[..|p|] == p;
    ConcatSnoc(r, "");
    assert CollapseSpaces(p + [c]) == CollapseSpaces(p) + " ";
    JoinSpSnoc(r, "");
  }

  /** Any other character extends the last piece. */
  lemma {:induction false} PiecesChar(p: string, c: char, r: seq<string>)
    requires !IsSpace(c) && Pieces(p, r)
    ensures Pieces(p + [c], r[..|r| - 1] + [r[|r| - 1] + [c]])
  {
    PiecesCharShape(p, c, r);
    PiecesCharText(p, c, r);
    assert (p + [c])[..|p|] == p;
    assert CollapseSpaces(p + [c]) == CollapseSpaces(p) + [c];
    JoinSpExtendLast(r, c);
  }

  /** A character added to the last word is added to the end of the join. */
  lemma {:induction false} JoinSpExtendLast(r: seq<string>, c: char)
    requires |r| >= 1
    ensures JoinSp(r[..|r| - 1] + [r[|r| - 1] + [c]]) == JoinSp(r) + [c]
  {
    var n := |r|;
    var r' := r[..n - 1] + [r[n - 1] + [c]];
    if n > 1 {
      assert r'[..n - 1] == r[..n - 1];
      AppendAssoc(JoinSp(r[..n - 1]) + " ", r[n - 1], [c]);
    }
  }

  /** The cut `split(/\s+/)` makes is the only one that satisfies `Pieces`. */
  lemma {:induction false} PiecesUnique(s: string, r1: seq<string>, r2: seq<string>)
    requires Pieces(s, r1) && Pieces(s, r2)
    ensures r1 == r2
  {
    JoinSpInjective(r1, r2);
  }

  /** Whatever satisfies `Pieces` is the result of `split(/\s+/)`. */
  lemma {:induction false} PiecesDetermineSplit(s: string, r: seq<string>)
    requires Pieces(s, r)
    ensures r == SplitWs(s)
  {
    SplitWsPieces(s);
    PiecesUnique(s, r, SplitWs(s));
  }

  /** Joining at least one word without whitespace by single spaces loses
      nothing: the words can be read back from the join. */
  lemma {:induction false} JoinSpInjective(r1: seq<string>, r2: seq<string>)
    requires |r1| >= 1 && |r2| >= 1 && JoinSp(r1) == JoinSp(r2)
    requires forall k :: 0 <= k < |r1| ==> NoSpace(r1[k])
    requires forall k :: 0 <= k < |r2| ==> NoSpace(r2[k])
    ensures r1 == r2
    decreases |r1|
  {
    var n1, n2 := |r1|, |r2|;
    if n1 == 1 && n2 == 1 {
    } else if n1 == 1 {
      JoinSpHasSpace(r2);
    } else if n2 == 1 {
      JoinSpHasSpace(r1);
    } else {
      var t := JoinSp(r1);
      var a1, w1 := JoinSp(r1[..n1 - 1]), r1[n1 - 1];
      var a2, w2 := JoinSp(r2[..n2 - 1]), r2[n2 - 1];
      assert t == a1 + " " + w1 && t == a2 + " " + w2;
      LastWordEqual(a1, w1, a2, w2);
      assert r1[..n1 - 1][..n1 - 2] == r1[..n1 - 2];
      JoinSpInjective(r1[..n1 - 1], r2[..n2 - 1]);
      LastSplit(r1);
      LastSplit(r2);
    }
  }

  /** `split(/\s+/)` undoes `join(" ")` on words without whitespace of
      which only the first and the last may be empty. */
  lemma {:induction false} SplitJoin(ws: seq<string>)
    requires |ws| >= 1
    requires forall k :: 0 <= k < |ws| ==> NoSpace(ws[k])
    requires forall k :: 0 < k < |ws| - 1 ==> ws[k] != ""
    ensures SplitWs(JoinSp(ws)) == ws
    decreases |ws|
  {
    var n := |ws|;
    if n == 1 {
      SplitWsWord("", ws[0]);
      assert "" + ws[0] == ws[0];
    } else {
      SplitJoin(ws[..n - 1]);
      SplitJoinStep(ws);
    }
  }

  lemma {:induction false} SplitJoinStep(ws: seq<string>)
    requires |ws| >= 2
    requires forall k :: 0 <= k < |ws| ==> NoSpace(ws[k])
    requires forall k :: 0 < k < |ws| - 1 ==> ws[k] != ""
    requires SplitWs(JoinSp(ws[..|ws| - 1])) == ws[..|ws| - 1]
    ensures SplitWs(JoinSp(ws)) == ws
  {
    var n := |ws|;
    var init, w := ws[..n - 1], ws[n - 1];
    var a := JoinSp(init);
    JoinSpEndsInWord(init);
    SplitWsSpace(a);
    SplitWsWord(a + " ", w);
    assert "" + w == w;
    LastSplit(ws);
  }

  /** Words joined by spaces end in a non-space when the last word is
      non-empty or it is the only one. */
  lemma {:induction false} JoinSpEndsInWord(ws: seq<string>)
    requires |ws| >= 1 && (forall k :: 0 <= k < |ws| ==> NoSpace(ws[k]))
    requires |ws| > 1 ==> ws[|ws| - 1] != ""
    ensures var a := JoinSp(ws); !(|a| >= 1 && IsSpace(a[|a| - 1]))
  {
    if |ws| > 1 {
      var w := ws[|ws| - 1];
      var a := JoinSp(ws[..|ws| - 1]) + " " + w;
      assert a[|a| - 1] == w[|w| - 1];
    }
  }

  /** A space after text not ending in whitespace opens an empty piece. */
  lemma {:induction false} SplitWsSpace(a: string)
    requires !(|a| >= 1 && IsSpace(a[|a| - 1]))
    ensures SplitWs(a + " ") == SplitWs(a) + [""]
  {
    var s := a + " ";
    assert s[..|s| - 1] == a;
    assert s[|s| - 1] == ' ';
    assert |s| >= 2 ==> s[|s| - 2] == a[|a| - 1];
  }

  /** A character other than whitespace extends the last piece. */
  lemma {:induction false} SplitWsChar(q: string, c: char)
    requires !IsSpace(c)
    ensures var r := SplitWs(q); SplitWs(q + [c]) == r[..|r| - 1] + [r[|r| - 1] + [c]]
  {
    var s := q + [c];
    assert s[..|s| - 1] == q;
    assert s[|s| - 1] == c;
  }

  /** Characters without whitespace extend the last piece. */
  lemma {:induction false} SplitWsWord(p: string, w: string)
    requires NoSpace(w)
    ensures ExtendsLast(SplitWs(p), SplitWs(p + w), w)
    decreases |w|
  {
    if w == "" {
      var r := SplitWs(p);
      assert p + w == p;
      assert r[|r| - 1] + w == r[|r| - 1];
      LastSplit(r);
    } else {
      SplitWsWord(p, w[..|w| - 1]);
      SplitWsWordStep(p, w);
    }
  }

  /** `r2` is `r1` with `w` added to its last piece. */
  predicate ExtendsLast(r1: seq<string>, r2: seq<string>, w: string) {
    |r1| >= 1 && r2 == r1[..|r1| - 1] + [r1[|r1| - 1] + w]
  }

  lemma {:induction false} SplitWsWordStep(p: string, w: string)
    requires w != "" && !IsSpace(w[|w| - 1])
    requires ExtendsLast(SplitWs(p), SplitWs(p + w[..|w| - 1]), w[..|w| - 1])
    ensures ExtendsLast(SplitWs(p), SplitWs(p + w), w)
  {
    var r := SplitWs(p);
    var n := |r|;
    var v, c := w[..|w| - 1], w[|w| - 1];
    var r' := SplitWs(p + v);
    assert p + w == (p + v) + [c];
    SplitWsChar(p + v, c);
    assert r'[..n - 1] == r[..n - 1] && r'[n - 1] == r[n - 1] + v;
    assert r[n - 1] + v + [c] == r[n - 1] + w;
  }

  /** Two or more words joined by spaces contain a space. */
  lemma {:induction false} JoinSpHasSpace(r: seq<string>)
    requires |r| >= 2
    ensures !NoSpace(JoinSp(r))
  {
    var a := JoinSp(r[..|r| - 1]);
    assert (a + " " + r[|r| - 1])[|a|] == ' ';
  }

  /** The text after the last space is determined by the string. */
  lemma {:induction false} LastWordEqual(a1: string, w1: string, a2: string, w2: string)
    requires NoSpace(w1) && NoSpace(w2) && a1 + " " + w1 == a2 + " " + w2
    ensures a1 == a2 && w1 == w2
  {
    var t := a1 + " " + w1;
    assert t[|a1|] == ' ' && t[|a2|] == ' ';
    assert forall i :: |a1| < i < |t| ==> t[i] == w1[i - |a1| - 1];
    assert forall i :: |a2| < i < |t| ==> t[i] == w2[i - |a2| - 1];
    assert |a1| == |a2|;
    assert a1 == t[..|a1|] && a2 == t[..|a2|];
    assert w1 == t[|a1| + 1..] && w2 == t[|a2| + 1..];
  }

  lemma {:induction false} PiecesCharShape(p: string, c: char, r: seq<string>)
    requires !IsSpace(c) && PiecesShape(p, r)
    ensures PiecesShape(p + [c], r[..|r| - 1] + [r[|r| - 1] + [c]])
  {
    var n := |r|;
    var r' := r[..n - 1] + [r[n - 1] + [c]];
    assert (p + [c])[..|p|] == p;
    NoSpaceAppend(r[n - 1], [c]);
    if n == 1 {
      NoSpaceAppend(p, [c]);
    }
    assert forall k :: 0 <= k < n - 1 ==> r'[k] == r[k];
  }

  lemma {:induction false} PiecesCharText(p: string, c: char, r: seq<string>)
    requires !IsSpace(c) && |r| >= 1 && Concat(r) == RemoveSpaces(p)
    ensures Concat(r[..|r| - 1] + [r[|r| - 1] + [c]]) == RemoveSpaces(p + [c])
  {
    var n := |r|;
    assert (p + [c])[..|p|] == p;
    assert r == r[..n - 1] + [r[n - 1]];
    ConcatSnoc(r[..n - 1], r[n - 1]);
    ConcatSnoc(r[..n - 1], r[n - 1] + [c]);
    AppendAssoc(Concat(r[..n - 1]), r[n - 1], [c]);
  }

  lemma {:induction false} ConcatSnoc(ss: seq<string>, s: string)
    ensures Concat(ss + [s]) == Concat(ss) + s
  {
    assert (ss + [s])[..|ss|] == ss;
  }

  lemma {:induction false} ConcatCons(s: string, ss: seq<string>)
    ensures Concat([s] + ss) == s + Concat(ss)
    decreases |ss|
  {
    if ss != [] {
      var n := |ss|;
      assert ([s] + ss)[..n] == [s] + ss[..n - 1];
      ConcatCons(s, ss[..n - 1]);
    }
  }

  /** Adjacent slices of one string join up. */
  lemma {:induction false} Glue(t: string, a: nat, b: nat, c: nat)
    requires a <= b <= c <= |t|
    ensures t[a..b] + t[b..c] == t[a..c]
  {
    assert forall i :: 0 <= i < c - a ==> (t[a..b] + t[b..c])[i] == t[a..c][i];
  }

  lemma {:induction false} GlueRest(t: string, a: nat, b: nat)
    requires a <= b <= |t|
    ensures t[a..b] + t[b..] == t[a..]
  {
    assert t[b..] == t[b..|t|] && t[a..] == t[a..|t|];
    Glue(t, a, b, |t|);
  }

  lemma {:induction false} AppendAssoc<T>(a: seq<T>, b: seq<T>, c: seq<T>)
    ensures a + (b + c) == a + b + c
  {
  }

  lemma {:induction false} LastSplit<T>(s: seq<T>)
    requires s != []
    ensures s == s[..|s| - 1] + [s[|s| - 1]]
  {
  }

  lemma {:induction false} TakeSnoc<T>(s: seq<T>, n: nat)
    requires n < |s|
    ensures s[..n + 1] == s[..n] + [s[n]]
  {
  }

  lemma {:induction false} Assoc4<T>(a: seq<T>, b: seq<T>, c: seq<T>, d: seq<T>)
    ensures a + (b + c + d) == a + b + c + d
  {
  }

  lemma {:induction false} DropAppend<T>(a: seq<T>, b: seq<T>, n: nat)
    requires n <= |a|
    ensures (a + b)[n..] == a[n..] + b
  {
  }

  lemma {:induction false} NoStarAppend(x: string, y: string)
    requires NoStar(x) && NoStar(y)
    ensures NoStar(x + y)
  {
    assert forall i :: |x| <= i < |x + y| ==> (x + y)[i] == y[i - |x|];
  }

  lemma {:induction false} NoSpaceAppend(x: string, y: string)
    requires NoSpace(x) && NoSpace(y)
    ensures NoSpace(x + y)
  {
    assert forall i :: |x| <= i < |x + y| ==> (x + y)[i] == y[i - |x|];
  }

  lemma {:induction false} RemoveSpacesAppend(a: string, b: string)
    ensures RemoveSpaces(a + b) == RemoveSpaces(a) + RemoveSpaces(b)
    decreases |b|
  {
    if b == "" {
      assert a + b == a;
    } else {
      var n := |b|;
      assert (a + b)[..|a + b| - 1] == a + b[..n - 1];
      assert (a + b)[|a + b| - 1] == b[n - 1];
      RemoveSpacesAppend(a, b[..n - 1]);
      AppendAssoc(RemoveSpaces(a), RemoveSpaces(b[..n - 1]),
                  if IsSpace(b[n - 1]) then "" else [b[n - 1]]);
    }
  }

  lemma {:induction false} RemoveSpacesNoSpace(s: string)
    requires NoSpace(s)
    ensures RemoveSpaces(s) == s
    decreases |s|
  {
    if s != "" {
      RemoveSpacesNoSpace(s[..|s| - 1]);
      assert s[..|s| - 1] + [s[|s| - 1]] == s;
    }
  }

  /** Joining words that hold no whitespace with single spaces, then taking
      the whitespace out again, leaves the words run together. */
  lemma {:induction false} RemoveSpacesJoin(ws: seq<string>)
    requires forall k :: 0 <= k < |ws| ==> NoSpace(ws[k])
    ensures RemoveSpaces(JoinSp(ws)) == Concat(ws)
    decreases |ws|
  {
    var n := |ws|;
    if n == 1 {
      RemoveSpacesNoSpace(ws[0]);
      assert ws == [] + [ws[0]];
      ConcatSnoc([], ws[0]);
    } else if n > 1 {
      var init := ws[..n - 1];
      RemoveSpacesJoin(init);
      RemoveJoinStep(JoinSp(init), ws[n - 1]);
      assert ws == init + [ws[n - 1]];
      ConcatSnoc(init, ws[n - 1]);
    }
  }

  lemma {:induction false} RemoveJoinStep(a: string, w: string)
    requires NoSpace(w)
    ensures RemoveSpaces(a + " " + w) == RemoveSpaces(a) + w
  {
    RemoveSpacesAppend(a + " ", w);
    RemoveSpacesAppend(a, " ");
    assert RemoveSpaces(" ") == RemoveSpaces("") + "";
    RemoveSpacesNoSpace(w);
  }

  lemma {:induction false} JoinSpSnoc(ws: seq<string>, w: string)
    requires ws != []
    ensures JoinSp(ws + [w]) == JoinSp(ws) + " " + w
  {
    assert (ws + [w])[..|ws|] == ws;
  }
}
