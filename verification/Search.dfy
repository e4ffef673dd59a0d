/** Literal title search through a LIKE pattern (ISO/IEC 9075-2, section 8.5, with escape character). */
module Search {

  const ESCAPE := '\\'

  predicate IsMeta(c: char) {
    c == ESCAPE || c == '%' || c == '_'
  }

  function EscapeChar(c: char): string {
    if IsMeta(c) then [ESCAPE, c] else [c]
  }

  /** One pass over the keyword, each special character preceded by the escape character. */
  function EscapeLike(s: string): string {
    if s == [] then [] else EscapeChar(s[0]) + EscapeLike(s[1..])
  }

  /** `%` matches any run, `_` any one character, an escaped character itself; a pattern ending in
      a bare escape character matches nothing. */
  predicate Like(text: string, pattern: string)
    decreases |pattern| + |text|
  {
    if pattern == [] then text == []
    else if pattern[0] == '%' then Like(text, pattern[1..]) || (text != [] && Like(text[1..], pattern))
    else if pattern[0] == '_' then text != [] && Like(text[1..], pattern[1..])
    else if pattern[0] == ESCAPE then
      |pattern| >= 2 && text != [] && text[0] == pattern[1] && Like(text[1..], pattern[2..])
    else text != [] && text[0] == pattern[0] && Like(text[1..], pattern[1..])
  }

  function Fold(fold: char -> char, s: string): string {
    seq(|s|, i requires 0 <= i < |s| => fold(s[i]))
  }

  /** Case folding leaves the three special characters alone and produces no new ones. */
  ghost predicate KeepsMeta(fold: char -> char) {
    forall c :: (IsMeta(c) ==> fold(c) == c) && (!IsMeta(c) ==> !IsMeta(fold(c)))
  }

  /** Case-insensitive LIKE: both sides are folded. */
  predicate ILike(fold: char -> char, text: string, pattern: string) {
    Like(Fold(fold, text), Fold(fold, pattern))
  }

  /** Some suffix of the text starts with k. */
  predicate Contains(text: string, k: string) {
    exists i :: 0 <= i <= |text| && k <= text[i..]
  }

  function ContainsPattern(k: string): string {
    "%" + EscapeLike(k) + "%"
  }

  // ---------- what patterns match ----------

  /** Underscores match any text of their number. */
  lemma {:induction false} UnderscoresCount(text: string, n: nat)
    ensures Like(text, seq(n, i => '_')) <==> |text| == n
  {
    var pattern := seq(n, i => '_');
    if n > 0 && text != [] {
      assert pattern[1..] == seq(n - 1, i => '_');
      UnderscoresCount(text[1..], n - 1);
    }
  }

  /** A percent sign matches any run: some rest of the text matches the rest of the pattern. */
  lemma {:induction false} PercentSkips(text: string, p: string)
    ensures Like(text, "%" + p) <==> exists i :: 0 <= i <= |text| && Like(text[i..], p)
  {
    assert ("%" + p)[1..] == p && text[0..] == text;
    if text == [] {
      assert forall i :: 0 <= i <= |text| ==> text[i..] == text;
    } else {
      PercentSkips(text[1..], p);
      assert forall i :: 0 <= i <= |text[1..]| ==> text[1..][i..] == text[i + 1..];
      if i :| 0 <= i <= |text| && Like(text[i..], p) {
        assert i > 0 ==> text[1..][i - 1..] == text[i..];
      }
    }
  }

  // ---------- the pattern finds the literal text ----------

  /** One escaped character matches itself and nothing else. */
  lemma LiteralChar(text: string, c: char, tail: string)
    ensures Like(text, EscapeChar(c) + tail) <==> text != [] && text[0] == c && Like(text[1..], tail)
  {
  }

  lemma PrefixStep(text: string, k: string)
    requires text != [] && k != [] && text[0] == k[0]
    ensures k <= text <==> k[1..] <= text[1..]
    ensures k <= text ==> text[1..][|k| - 1..] == text[|k|..]
  {
  }

  lemma {:induction false} LiteralPrefix(text: string, k: string, rest: string)
    ensures Like(text, EscapeLike(k) + rest) <==> k <= text && Like(text[|k|..], rest)
    decreases |k|
  {
    if k == [] {
      assert EscapeLike(k) + rest == rest && text[0..] == text;
    } else {
      var tail := EscapeLike(k[1..]) + rest;
      assert EscapeLike(k) + rest == EscapeChar(k[0]) + tail;
      LiteralChar(text, k[0], tail);
      if text != [] && text[0] == k[0] {
        LiteralPrefix(text[1..], k[1..], rest);
        PrefixStep(text, k);
      }
    }
  }

  /** An escaped text matches itself and nothing else. */
  lemma EscapedIsLiteral(text: string, k: string)
    ensures Like(text, EscapeLike(k)) <==> text == k
  {
    LiteralPrefix(text, k, "");
    assert EscapeLike(k) + "" == EscapeLike(k);
    assert k <= text && text[|k|..] == [] ==> text == k;
    assert text == k ==> text[|k|..] == [];
  }

  lemma {:induction false} PercentMatchesAll(text: string)
    ensures Like(text, "%")
    decreases |text|
  {
    assert "%"[1..] == "";
    if text != [] {
      PercentMatchesAll(text[1..]);
    }
  }

  /** Containing is starting with, or containing further on. */
  lemma ContainsStep(text: string, k: string)
    ensures Contains(text, k) <==> k <= text || (text != [] && Contains(text[1..], k))
  {
    assert text[0..] == text;
    if Contains(text, k) && !(k <= text) {
      var i :| 0 <= i <= |text| && k <= text[i..];
      assert text[1..][i - 1..] == text[i..];
    }
    if text != [] && Contains(text[1..], k) {
      var i :| 0 <= i <= |text[1..]| && k <= text[1..][i..];
      assert text[i + 1..] == text[1..][i..];
    }
  }

  lemma {:induction false} SearchFrom(text: string, k: string)
    ensures Like(text, ContainsPattern(k)) <==> Contains(text, k)
    decreases |text|
  {
    var p := ContainsPattern(k);
    assert p[1..] == EscapeLike(k) + "%";
    LiteralPrefix(text, k, "%");
    ContainsStep(text, k);
    if k <= text {
      PercentMatchesAll(text[|k|..]);
    }
    if text != [] {
      SearchFrom(text[1..], k);
    }
  }

  lemma {:induction false} EscapeFolds(fold: char -> char, k: string)
    requires KeepsMeta(fold)
    ensures Fold(fold, EscapeLike(k)) == EscapeLike(Fold(fold, k))
  {
    if k != [] {
      EscapeFolds(fold, k[1..]);
      assert Fold(fold, k)[1..] == Fold(fold, k[1..]);
      assert Fold(fold, EscapeLike(k)) == Fold(fold, EscapeChar(k[0])) + Fold(fold, EscapeLike(k[1..]));
      assert Fold(fold, EscapeChar(k[0])) == EscapeChar(fold(k[0]));
    }
  }

  /** A title matches the escaped pattern iff, case aside, it contains the keyword literally. */
  lemma LiteralSearch(fold: char -> char, title: string, k: string)
    requires KeepsMeta(fold)
    ensures ILike(fold, title, ContainsPattern(k)) <==> Contains(Fold(fold, title), Fold(fold, k))
  {
    EscapeFolds(fold, k);
    assert Fold(fold, ContainsPattern(k)) == ContainsPattern(Fold(fold, k)) by {
      assert Fold(fold, ContainsPattern(k)) == [fold('%')] + Fold(fold, EscapeLike(k)) + [fold('%')];
      assert IsMeta('%');
    }
    SearchFrom(Fold(fold, title), Fold(fold, k));
  }

  // ---------- the escape itself ----------

  function Unescape(s: string): string {
    if s == [] then []
    else if s[0] == ESCAPE && |s| >= 2 then [s[1]] + Unescape(s[2..])
    else [s[0]] + Unescape(s[1..])
  }

  /** Escaping loses nothing: different keywords give different patterns. */
  lemma {:induction false} EscapeInvertible(s: string)
    ensures Unescape(EscapeLike(s)) == s
  {
    if s != [] {
      EscapeInvertible(s[1..]);
      var e := EscapeLike(s);
      if IsMeta(s[0]) {
        assert e[2..] == EscapeLike(s[1..]);
      } else {
        assert e[1..] == EscapeLike(s[1..]);
      }
    }
  }

  /** Replacing every occurrence of one character by its escaped form. */
  function ReplaceChar(s: string, c: char): string {
    if s == [] then [] else (if s[0] == c then [ESCAPE, c] else [s[0]]) + ReplaceChar(s[1..], c)
  }

  lemma {:induction false} ReplaceConcat(a: string, b: string, c: char)
    ensures ReplaceChar(a + b, c) == ReplaceChar(a, c) + ReplaceChar(b, c)
  {
    if a == [] {
      assert a + b == b;
    } else {
      assert (a + b)[1..] == a[1..] + b;
      ReplaceConcat(a[1..], b, c);
    }
  }

  lemma ReplaceShort(x: char, y: char, c: char)
    ensures ReplaceChar([x], c) == if x == c then [ESCAPE, c] else [x]
    ensures ReplaceChar([x, y], c) == ReplaceChar([x], c) + ReplaceChar([y], c)
  {
  }

  /** The one pass equals three replacements, provided the escape character goes first. */
  lemma {:induction false} EscapeIsSequential(s: string)
    ensures EscapeLike(s) == ReplaceChar(ReplaceChar(ReplaceChar(s, ESCAPE), '%'), '_')
  {
    if s != [] {
      var h, t := [s[0]], s[1..];
      assert s == h + t;
      EscapeIsSequential(t);
      ReplaceConcat(h, t, ESCAPE);
      ReplaceConcat(ReplaceChar(h, ESCAPE), ReplaceChar(t, ESCAPE), '%');
      ReplaceConcat(ReplaceChar(ReplaceChar(h, ESCAPE), '%'), ReplaceChar(ReplaceChar(t, ESCAPE), '%'), '_');
      SequentialOnChar(s[0]);
    }
  }

  lemma SequentialOnChar(c: char)
    ensures ReplaceChar(ReplaceChar(ReplaceChar([c], ESCAPE), '%'), '_') == EscapeChar(c)
    ensures ReplaceChar(ReplaceChar(ReplaceChar([c], '%'), '_'), ESCAPE) ==
            if c == '%' || c == '_' then [ESCAPE, ESCAPE, c] else EscapeChar(c)
  {
    ReplaceShort(c, c, ESCAPE);
    ReplaceShort(c, c, '%');
    ReplaceShort(c, c, '_');
    ReplaceShort(ESCAPE, c, ESCAPE);
    ReplaceShort(ESCAPE, c, '%');
    ReplaceShort(ESCAPE, c, '_');
    ReplaceShort(ESCAPE, ESCAPE, '%');
    ReplaceShort(ESCAPE, ESCAPE, '_');
  }

  function Specials(s: string): nat {
    if s == [] then 0 else (if s[0] == '%' || s[0] == '_' then 1 else 0) + Specials(s[1..])
  }

  /** Escaping the escape character last is wrong exactly for keywords with a wildcard in them. */
  lemma EscapeCharLastExactly(s: string)
    ensures ReplaceChar(ReplaceChar(ReplaceChar(s, '%'), '_'), ESCAPE) == EscapeLike(s) <==> '%' !in s && '_' !in s
  {
    LastLonger(s);
    NoSpecials(s);
    if Specials(s) == 0 {
      LastSame(s);
    }
  }

  lemma {:induction false} NoSpecials(s: string)
    ensures Specials(s) == 0 <==> '%' !in s && '_' !in s
  {
    if s != [] {
      NoSpecials(s[1..]);
      assert s == [s[0]] + s[1..];
    }
  }

  lemma LastStep(s: string)
    requires s != []
    ensures ReplaceChar(ReplaceChar(ReplaceChar(s, '%'), '_'), ESCAPE) ==
            ReplaceChar(ReplaceChar(ReplaceChar([s[0]], '%'), '_'), ESCAPE) +
            ReplaceChar(ReplaceChar(ReplaceChar(s[1..], '%'), '_'), ESCAPE)
  {
    var h, t := [s[0]], s[1..];
    assert s == h + t;
    ReplaceConcat(h, t, '%');
    ReplaceConcat(ReplaceChar(h, '%'), ReplaceChar(t, '%'), '_');
    ReplaceConcat(ReplaceChar(ReplaceChar(h, '%'), '_'), ReplaceChar(ReplaceChar(t, '%'), '_'), ESCAPE);
  }

  lemma {:induction false} LastLonger(s: string)
    ensures |ReplaceChar(ReplaceChar(ReplaceChar(s, '%'), '_'), ESCAPE)| == |EscapeLike(s)| + Specials(s)
  {
    if s != [] {
      LastLonger(s[1..]);
      LastStep(s);
      SequentialOnChar(s[0]);
    }
  }

  lemma {:induction false} LastSame(s: string)
    requires Specials(s) == 0
    ensures ReplaceChar(ReplaceChar(ReplaceChar(s, '%'), '_'), ESCAPE) == EscapeLike(s)
  {
    if s != [] {
      LastSame(s[1..]);
      LastStep(s);
      SequentialOnChar(s[0]);
    }
  }
}
