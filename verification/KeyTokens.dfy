/** Where the token-aware matcher cuts a key, in terms of how the key was put together, and what the
    built-in lists flag. */
module KeyTokens {
  import Names
  import opened Sequences
  import opened KeyMatcher

  // ----- pieces -----

  lemma LowerAllAt(ts: seq<string>)
    ensures |LowerAll(ts)| == |ts| && forall i :: 0 <= i < |ts| ==> LowerAll(ts)[i] == Lower(ts[i])
  {
    if ts != [] { LowerAllAt(ts[..|ts| - 1]); }
  }

  lemma LowerAllAppend(ts: seq<string>, us: seq<string>)
    ensures LowerAll(ts + us) == LowerAll(ts) + LowerAll(us)
  {
    LowerAllAt(ts);
    LowerAllAt(us);
    LowerAllAt(ts + us);
  }

  /** The characters from a to b hang together. */
  predicate OneRun(key: string, a: nat, b: nat) {
    && a < b <= |key| && SplitsBefore(key, a)
    && (forall p :: a <= p < b ==> Inside(key, a, p))
  }

  predicate Inside(key: string, a: nat, p: nat) {
    p < |key| && !Separator(key[p]) && (a < p ==> !SplitsBefore(key, p))
  }

  lemma {:induction false} RunIsPiece(key: string, a: nat, b: nat)
    requires OneRun(key, a, b)
    ensures Pieces(key, b) == Pieces(key, a) + [key[a..b]]
    decreases b
  {
    assert Inside(key, a, b - 1);
    if b > a + 1 {
      RunIsPiece(key, a, b - 1);
      RunGrows(key, a, b, Pieces(key, a));
    } else {
      RunBegins(key, a);
    }
  }

  lemma RunBegins(key: string, a: nat)
    requires Inside(key, a, a) && SplitsBefore(key, a)
    ensures Pieces(key, a + 1) == Pieces(key, a) + [key[a..a + 1]]
  {
    assert [key[a]] == key[a..a + 1];
  }

  lemma RunGrows(key: string, a: nat, b: nat, before: seq<string>)
    requires a + 1 < b <= |key| && Inside(key, a, b - 1) && Pieces(key, b - 1) == before + [key[a..b - 1]]
    ensures Pieces(key, b) == before + [key[a..b]]
  {
    var ps := Pieces(key, b - 1);
    assert ps[..|ps| - 1] == before && ps[|ps| - 1] == key[a..b - 1];
    assert key[a..b - 1] + [key[b - 1]] == key[a..b];
  }

  /** The cuts up to n are the same in both keys. */
  predicate CutAlike(key: string, other: string, n: nat) {
    n <= |key| && n <= |other| && forall p :: 0 <= p < n ==> AlikeAt(key, other, p)
  }

  predicate AlikeAt(key: string, other: string, p: nat) {
    p < |key| && p < |other| && key[p] == other[p] && (SplitsBefore(key, p) <==> SplitsBefore(other, p))
  }

  lemma SamePiece(key: string, other: string, n: nat)
    requires 0 < n <= |key| && n <= |other| && key[n - 1] == other[n - 1]
    requires SplitsBefore(key, n - 1) <==> SplitsBefore(other, n - 1)
    requires Pieces(key, n - 1) == Pieces(other, n - 1)
    ensures Pieces(key, n) == Pieces(other, n)
  {
  }

  lemma {:induction false} PiecesAlike(key: string, other: string, n: nat)
    requires CutAlike(key, other, n)
    ensures Pieces(key, n) == Pieces(other, n)
  {
    if n > 0 {
      assert AlikeAt(key, other, n - 1);
      PiecesAlike(key, other, n - 1);
      SamePiece(key, other, n);
    }
  }

  // ----- separators -----

  lemma PiecesUpToSeparator(key: string, pre: string, c: char, post: string)
    requires key == pre + [c] + post && Separator(c)
    ensures Pieces(key, |pre| + 1) == Pieces(pre, |pre|)
  {
    assert key == pre + ([c] + post);
    forall p | 0 <= p < |pre| ensures AlikeAt(key, pre, p) { AlikeBefore(pre, [c] + post, p); }
    PiecesAlike(key, pre, |pre|);
    SeparatorAddsNothing(key, |pre|);
  }

  lemma SeparatorAddsNothing(key: string, n: nat)
    requires n < |key| && Separator(key[n])
    ensures Pieces(key, n + 1) == Pieces(key, n)
  {
  }

  lemma NoPieces(key: string)
    ensures Pieces(key, 0) == []
  {
  }

  /** What follows does not change the cuts before it, unless a capital at the end and a small letter
      at its beginning come together. */
  lemma AlikeBefore(pre: string, rest: string, p: nat)
    requires p < |pre| && rest != "" && (p + 1 == |pre| ==> !LowerLetter(rest[0]) || !Upper(pre[p]))
    ensures AlikeAt(pre + rest, pre, p)
  {
    var key := pre + rest;
    assert key[p] == pre[p];
    if p > 0 { assert key[p - 1] == pre[p - 1]; }
    if p + 1 < |pre| { assert key[p + 1] == pre[p + 1]; } else { assert key[p + 1] == rest[0]; }
  }

  /** Behind a separator the cuts are those of the rest alone. */
  lemma CutsAfterSeparator(pre: string, c: char, post: string, n: nat)
    requires Separator(c) && n < |post|
    ensures SplitsBefore(pre + [c] + post, |pre| + 1 + n) <==> SplitsBefore(post, n)
  {
    var key, m := pre + [c] + post, |pre| + 1;
    assert key[m + n] == post[n];
    if n == 0 {
      assert key[|pre|] == c;
    } else {
      assert key[m + n - 1] == post[n - 1];
      if n + 1 < |post| { assert key[m + n + 1] == post[n + 1]; }
    }
  }

  lemma {:induction false} PiecesAfter(key: string, pre: string, c: char, post: string, n: nat)
    requires key == pre + [c] + post && Separator(c) && n <= |post|
    ensures Pieces(key, |pre| + 1 + n) == Pieces(pre, |pre|) + Pieces(post, n)
  {
    if n == 0 {
      PiecesUpToSeparator(key, pre, c, post);
      NoPieces(post);
      assert Pieces(pre, |pre|) + [] == Pieces(pre, |pre|);
    } else {
      PiecesAfter(key, pre, c, post, n - 1);
      PieceAfter(key, pre, c, post, n);
    }
  }

  lemma PieceAfter(key: string, pre: string, c: char, post: string, n: nat)
    requires key == pre + [c] + post && Separator(c) && 0 < n <= |post|
    requires Pieces(key, |pre| + n) == Pieces(pre, |pre|) + Pieces(post, n - 1)
    ensures Pieces(key, |pre| + 1 + n) == Pieces(pre, |pre|) + Pieces(post, n)
  {
    CutsAfterSeparator(pre, c, post, n - 1);
    if Pieces(post, n - 1) == [] { NothingYet(post, n - 1); }
    LastOfBoth(pre + [c], post, n - 1);
    PiecesStep(key, post, |pre| + 1, n, Pieces(pre, |pre|));
  }

  lemma LastOfBoth(s: string, t: string, i: nat)
    requires i < |t|
    ensures (s + t)[|s| + i] == t[i]
  {
  }

  /** Without a piece so far the next character begins one. */
  lemma {:induction false} NothingYet(key: string, n: nat)
    requires n < |key| && Pieces(key, n) == []
    ensures SplitsBefore(key, n)
  {
    if n > 0 { assert Separator(key[n - 1]); }
  }

  lemma PiecesStep(key: string, post: string, m: nat, n: nat, before: seq<string>)
    requires 0 < n <= |post| && m + n <= |key| && key[m + n - 1] == post[n - 1]
    requires SplitsBefore(key, m + n - 1) <==> SplitsBefore(post, n - 1)
    requires Pieces(key, m + n - 1) == before + Pieces(post, n - 1)
    requires Pieces(post, n - 1) == [] ==> SplitsBefore(post, n - 1) || Separator(post[n - 1])
    ensures Pieces(key, m + n) == before + Pieces(post, n)
  {
    var ps, c := Pieces(post, n - 1), post[n - 1];
    if Separator(c) {
      assert Pieces(post, n) == ps;
    } else if SplitsBefore(post, n - 1) {
      assert Pieces(post, n) == ps + [[c]];
      assert before + ps + [[c]] == before + (ps + [[c]]);
    } else {
      Grown(before, ps, c);
    }
  }

  lemma Grown(before: seq<string>, ps: seq<string>, c: char)
    requires ps != []
    ensures var all := before + ps;
            all[..|all| - 1] + [all[|all| - 1] + [c]] == before + (ps[..|ps| - 1] + [ps[|ps| - 1] + [c]])
  {
  }

  /** A hyphen, an underscore, a dot or white space cuts the key in two. */
  lemma SeparatorCuts(pre: string, c: char, post: string)
    requires c == '-' || c == '_' || c == '.' || c == ' ' || 9 <= c as int <= 13 || 28 <= c as int <= 31
    ensures Split(pre + [c] + post) == Split(pre) + Split(post)
  {
    assert Separator(c);
    PiecesAfter(pre + [c] + post, pre, c, post, |post|);
    LowerAllAppend(Pieces(pre, |pre|), Pieces(post, |post|));
  }

  /** And drops out of its normalized form. */
  lemma SeparatorDrops(pre: string, c: char, post: string)
    requires c == '-' || c == '_' || c == '.' || c == ' ' || 9 <= c as int <= 13 || 28 <= c as int <= 31
    ensures Normalize(pre + [c] + post) == Normalize(pre) + Normalize(post)
  {
    assert Separator(c);
    StrippedAppend(pre + [c], post);
    StrippedAppend(pre, [c]);
    assert [c][..0] == "" && Stripped([c]) == "" && Stripped(pre) + "" == Stripped(pre);
    LowerAppend(Stripped(pre), Stripped(post));
  }

  lemma {:induction false} StrippedAppend(s: string, t: string)
    ensures Stripped(s + t) == Stripped(s) + Stripped(t)
  {
    if t == "" {
      assert s + t == s;
    } else {
      assert (s + t)[..|s + t| - 1] == s + t[..|t| - 1];
      StrippedAppend(s, t[..|t| - 1]);
    }
  }

  // ----- capitals -----

  /** Small letters and digits, beginning with a letter. */
  predicate Word(w: string) {
    w != "" && LowerLetter(w[0]) && forall i :: 0 <= i < |w| ==> Small(w[i])
  }

  function UpperChar(c: char): char
    requires LowerLetter(c)
  {
    (c as int - 32) as char
  }

  function Capitalized(w: string): string
    requires Word(w)
  {
    [UpperChar(w[0])] + w[1..]
  }

  lemma CapitalLetter(c: char)
    requires LowerLetter(c)
    ensures LowerChar(UpperChar(c)) == c && Upper(UpperChar(c)) && !Separator(UpperChar(c))
  {
  }

  predicate Small(c: char) {
    LowerLetter(c) || Names.IsDigit(c)
  }

  lemma SmallLetter(c: char)
    requires Small(c)
    ensures LowerChar(c) == c && !Upper(c) && !Separator(c)
  {
  }

  lemma {:induction false} LowerSmall(s: string)
    requires forall i :: 0 <= i < |s| ==> Small(s[i])
    ensures Lower(s) == s && forall i :: 0 <= i < |s| ==> !Upper(s[i]) && !Separator(s[i])
  {
    if s != "" {
      LowerSmall(s[..|s| - 1]);
      SmallLetter(s[|s| - 1]);
      assert s[..|s| - 1] + [s[|s| - 1]] == s;
      forall i | 0 <= i < |s| ensures !Upper(s[i]) && !Separator(s[i]) { SmallLetter(s[i]); }
    }
  }

  lemma CapitalizedLower(w: string)
    requires Word(w)
    ensures Lower(Capitalized(w)) == w && Lower(w) == w
  {
    LowerSmall(w);
    LowerRest(w);
    CapitalLetter(w[0]);
    LowerAppend([UpperChar(w[0])], w[1..]);
    LowerOne(UpperChar(w[0]));
    assert [w[0]] + w[1..] == w;
  }

  lemma LowerRest(w: string)
    requires Word(w)
    ensures Lower(w[1..]) == w[1..]
  {
    forall i | 0 <= i < |w[1..]| ensures Small(w[1..][i]) { assert w[1..][i] == w[i + 1]; }
    LowerSmall(w[1..]);
  }

  lemma LowerOne(c: char)
    ensures Lower([c]) == [LowerChar(c)]
  {
    assert [c][..0] == "";
  }

  lemma CapitalizedNoSeparator(w: string, i: nat)
    requires Word(w) && i < |w|
    ensures !Separator(Capitalized(w)[i])
  {
    CapitalLetter(w[0]);
    if i > 0 { SmallLetter(w[i]); }
  }

  lemma InsideCapitalized(key: string, pre: string, w: string, i: nat)
    requires Word(w) && key == pre + Capitalized(w) && i < |w|
    ensures Inside(key, |pre|, |pre| + i)
  {
    var k := Capitalized(w);
    CapitalizedNoSeparator(w, i);
    assert key[|pre| + i] == k[i];
    if i > 0 {
      SmallLetter(w[i]);
      CapitalizedNoSeparator(w, i - 1);
      assert key[|pre| + i - 1] == k[i - 1] && k[i] == w[i];
    }
  }

  lemma LastRun(key: string, a: nat, last: string)
    requires OneRun(key, a, |key|) && key[a..|key|] == last
    ensures Pieces(key, |key|) == Pieces(key, a) + [last]
  {
    RunIsPiece(key, a, |key|);
  }

  /** A capitalized word hangs together. */
  lemma CapitalizedIsRun(key: string, pre: string, w: string)
    requires Word(w) && key == pre + Capitalized(w) && SplitsBefore(key, |pre|)
    ensures OneRun(key, |pre|, |key|)
  {
    assert |key| == |pre| + |w|;
    forall p: nat | |pre| <= p < |key| ensures Inside(key, |pre|, p) { InsideCapitalized(key, pre, w, p - |pre|); }
  }

  lemma Tail(s: string, t: string)
    ensures (s + t)[|s|..|s| + |t|] == t
  {
  }

  /** `words[0] + Words[1] + ...`, each further word with a capital and at least two characters. */
  predicate CamelWords(words: seq<string>) {
    words != [] && (forall i :: 0 <= i < |words| ==> Word(words[i])) && forall i :: 1 <= i < |words| ==> |words[i]| >= 2
  }

  function Camel(words: seq<string>): string
    requires CamelWords(words)
  {
    if |words| == 1 then words[0] else Camel(words[..|words| - 1]) + Capitalized(words[|words| - 1])
  }

  predicate EndsSmall(key: string) {
    key != "" && Small(key[|key| - 1])
  }

  lemma {:induction false} CamelEnds(words: seq<string>)
    requires CamelWords(words)
    ensures EndsSmall(Camel(words))
  {
  }

  /** A capitalized word begins a token of its own after a small letter or a digit. */
  lemma CapitalCuts(pre: string, w: string)
    requires EndsSmall(pre) && Word(w)
    ensures Split(pre + Capitalized(w)) == Split(pre) + [w]
  {
    var key := pre + Capitalized(w);
    CapitalizedLower(w);
    BeforeCapital(pre, w);
    CapitalBoundary(key, pre, w);
    CapitalizedIsRun(key, pre, w);
    Tail(pre, Capitalized(w));
    LastRun(key, |pre|, Capitalized(w));
    TwoParts(key, Pieces(pre, |pre|), Capitalized(w));
  }

  lemma CapitalBoundary(key: string, pre: string, w: string)
    requires EndsSmall(pre) && Word(w) && key == pre + Capitalized(w)
    ensures SplitsBefore(key, |pre|)
  {
    CapitalLetter(w[0]);
    assert key[|pre|] == UpperChar(w[0]) && key[|pre| - 1] == pre[|pre| - 1];
    assert Boundary(key, |pre|);
  }

  lemma TwoParts(key: string, before: seq<string>, last: string)
    requires Pieces(key, |key|) == before + [last]
    ensures Split(key) == LowerAll(before) + [Lower(last)]
  {
    LowerAllAppend(before, [last]);
    LowerAllAt([last]);
    assert LowerAll([last]) == [Lower(last)];
  }

  lemma BeforeCapital(pre: string, w: string)
    requires EndsSmall(pre) && Word(w)
    ensures Pieces(pre + Capitalized(w), |pre|) == Pieces(pre, |pre|)
  {
    CapitalLetter(w[0]);
    forall p | 0 <= p < |pre| ensures AlikeAt(pre + Capitalized(w), pre, p) { AlikeBefore(pre, Capitalized(w), p); }
    PiecesAlike(pre + Capitalized(w), pre, |pre|);
  }

  /** Splitting undoes camel case. */
  lemma {:induction false} CamelSplits(words: seq<string>)
    requires CamelWords(words)
    ensures Split(Camel(words)) == words
  {
    var n := |words| - 1;
    if n == 0 {
      WordIsOneToken(words[0]);
      assert words == [words[0]];
    } else {
      CamelSplits(words[..n]);
      CamelEnds(words[..n]);
      CapitalCuts(Camel(words[..n]), words[n]);
      assert words == words[..n] + [words[n]];
    }
  }

  lemma WordIsOneToken(w: string)
    requires Word(w)
    ensures Split(w) == [w] && Normalize(w) == w
  {
    LowerSmall(w);
    PlainIsNormalized(w);
    PlainKeyIsOneToken(w);
  }

  /** Capitals in a row. */
  predicate Acronym(a: string) {
    a != "" && forall i :: 0 <= i < |a| ==> Upper(a[i])
  }

  /** An acronym's last capital belongs to the word that follows it. */
  lemma AcronymCuts(a: string, w: string)
    requires Acronym(a) && Word(w) && |w| >= 2 && LowerLetter(w[1])
    ensures Split(a + Capitalized(w)) == [Lower(a), w]
  {
    var key := a + Capitalized(w);
    CapitalizedLower(w);
    CapitalLetter(w[0]);
    AcronymRun(a, Capitalized(w));
    AcronymBoundary(key, a, w);
    CapitalizedIsRun(key, a, w);
    Tail(a, Capitalized(w));
    LastRun(key, |a|, Capitalized(w));
    TwoParts(key, [a], Capitalized(w));
    LowerAllAt([a]);
    assert LowerAll([a]) == [Lower(a)];
  }

  lemma AcronymBoundary(key: string, a: string, w: string)
    requires Acronym(a) && Word(w) && |w| >= 2 && LowerLetter(w[1]) && key == a + Capitalized(w)
    ensures SplitsBefore(key, |a|)
  {
    CapitalLetter(w[0]);
    assert key[|a|] == UpperChar(w[0]) && key[|a| - 1] == a[|a| - 1] && key[|a| + 1] == w[1];
    assert Boundary(key, |a|);
  }

  /** Capitals in a row hang together up to the last one, if a capital or nothing follows. */
  lemma AcronymRun(a: string, rest: string)
    requires Acronym(a) && (rest != "" ==> Upper(rest[0]))
    ensures Pieces(a + rest, |a|) == [a]
  {
    var key := a + rest;
    forall p | 0 <= p < |a| ensures Inside(key, 0, p) { InsideAcronym(a, rest, p); }
    RunIsPiece(key, 0, |a|);
    assert key[0..|a|] == a;
    assert Pieces(key, 0) + [a] == [a];
  }

  lemma InsideAcronym(a: string, rest: string, p: nat)
    requires Acronym(a) && (rest != "" ==> Upper(rest[0])) && p < |a|
    ensures Inside(a + rest, 0, p)
  {
    var key := a + rest;
    assert key[p] == a[p];
    if p > 0 { assert key[p - 1] == a[p - 1]; }
    if p + 1 < |a| { assert key[p + 1] == a[p + 1]; } else if rest != "" { assert key[p + 1] == rest[0]; }
  }

  /** Capitals alone are not cut. */
  lemma AcronymIsOneToken(a: string)
    requires Acronym(a)
    ensures Split(a) == [Lower(a)]
  {
    AcronymRun(a, "");
    assert a + "" == a;
    LowerAllAt([a]);
  }

  // ----- the built-in lists -----

  lemma {:induction false} TokensNonEmpty(key: string)
    ensures "" !in Split(key)
  {
    PiecesFilled(key, |key|);
    LowerAllAt(Pieces(key, |key|));
    forall i | 0 <= i < |Pieces(key, |key|)| ensures Split(key)[i] != "" { LowerKeepsLength(Pieces(key, |key|)[i]); }
  }

  lemma {:induction false} PiecesFilled(key: string, n: nat)
    requires n <= |key|
    ensures forall i :: 0 <= i < |Pieces(key, n)| ==> Pieces(key, n)[i] != ""
  {
    if n > 0 { PiecesFilled(key, n - 1); }
  }

  lemma TokenMeansKey(key: string, t: string)
    requires t in Split(key)
    ensures Normalize(key) != ""
  {
    TokensConcatToNormalized(key);
    TokenInConcat(Split(key), t);
    TokensNonEmpty(key);
  }

  /** With the built-in lists alone a key is flagged exactly if it is one of the whole names, in any
      spelling, or one of its tokens is a sensitive word. */
  lemma DefaultsFlagExactly(c: Config, key: string)
    requires c.scrubDefaults && !c.aggressive && c.sensitiveKeys == [] && c.safeKeys == []
    ensures Sensitive(Compile(c), key) <==>
            Normalize(key) in DEFAULT_WHOLE_KEYS - {""} || exists t :: t in Split(key) && t in DEFAULT_KEY_TOKENS
  {
    var m := Compile(c);
    FastPathAgrees(m, key);
    TokensNonEmpty(key);
    assert NormalizedKeys(c.sensitiveKeys) == {} && m.safelist == {};
    if t :| t in Split(key) && t in DEFAULT_KEY_TOKENS { TokenMeansKey(key, t); }
  }

  /** Switched off, and with no key named, nothing is flagged. */
  lemma NoListsNoFlags(c: Config, key: string)
    requires !c.scrubDefaults && c.sensitiveKeys == []
    ensures !Sensitive(Compile(c), key)
  {
    var m := Compile(c);
    assert NormalizedKeys(c.sensitiveKeys) == {};
    FastPathAgrees(m, key);
  }

  /** Without built-in lists the token-aware matcher flags exactly the keys named, in any spelling, and
      a safe key exempts a key it equals, or a token of it. */
  lemma NamedAloneFlagExactly(c: Config, key: string)
    requires !c.scrubDefaults && !c.aggressive
    ensures Sensitive(Compile(c), key) <==>
            && (exists k :: k in c.sensitiveKeys && Normalize(k) == Normalize(key) != "")
            && forall k :: k in c.safeKeys && k != "" ==> Normalize(k) != Normalize(key)
  {
    var m, n := Compile(c), Normalize(key);
    FastPathAgrees(m, key);
    assert n in m.wholeKeys <==> exists k :: k in c.sensitiveKeys && Normalize(k) == n != "";
  }

  /** A token that is a safe key exempts the whole key from the token match, though not a key that is
      itself one of the whole names. */
  lemma SafeTokenExempts(c: Config, key: string, safe: string)
    requires !c.aggressive && safe in c.safeKeys && safe != "" && Normalize(safe) in Split(key)
    ensures Sensitive(Compile(c), key) ==> Normalize(key) in Compile(c).wholeKeys
  {
    FastPathAgrees(Compile(c), key);
  }

  /** A key is flagged for any of its tokens, and so in camel case for any of its words. */
  lemma SensitiveWordFlags(c: Config, key: string, t: string)
    requires c.scrubDefaults && !c.aggressive && c.sensitiveKeys == [] && c.safeKeys == []
    requires t in Split(key)
    requires t == "password" || t == "secret" || t == "auth" || t == "token" || t == "session" || t == "cookie" || t == "ssn"
    ensures Sensitive(Compile(c), key)
  {
    assert t in DEFAULT_KEY_TOKENS;
    DefaultsFlagExactly(c, key);
  }

  lemma CamelKeysFlagged(c: Config, words: seq<string>, i: nat)
    requires c.scrubDefaults && !c.aggressive && c.sensitiveKeys == [] && c.safeKeys == []
    requires CamelWords(words) && i < |words|
    requires words[i] == "password" || words[i] == "secret" || words[i] == "auth" || words[i] == "token"
    ensures Sensitive(Compile(c), Camel(words))
  {
    CamelSplits(words);
    SensitiveWordFlags(c, Camel(words), words[i]);
  }
}
