/** The two key matchers of the PII scrubber, on ASCII keys. */
module KeyMatcher {
  import Names
  import opened Sequences

  const DEFAULT_KEY_TOKENS: set<string> :=
    {"password", "passwd", "passphrase", "pwd", "pin", "secret", "auth", "bearer", "credentials", "token", "session",
     "cookie", "csrf", "xsrf", "ssn", "cvv", "cvc"}

  const DEFAULT_WHOLE_KEYS: set<string> :=
    {"apikey", "xapikey", "authorization", "csrftoken", "xcsrftoken", "sessionid", "setcookie", "connectsid",
     "aiohttpsession", "mysqlpwd", "xforwardedfor", "privatekey", "creditcard", "cardnumber", "socialsecurity"}

  // ----- characters -----

  /** `[-_.\s]`; Python's \s on ASCII is tab to carriage return, the four separators 28 to 31, and space. */
  predicate Separator(c: char) {
    c == '-' || c == '_' || c == '.' || c == ' ' || (9 as char <= c <= 13 as char) || (28 as char <= c <= 31 as char)
  }

  predicate Upper(c: char) { 'A' <= c <= 'Z' }

  predicate LowerLetter(c: char) { 'a' <= c <= 'z' }

  function LowerChar(c: char): char {
    if Upper(c) then (c as int + 32) as char else c
  }

  function Lower(s: string): string {
    if s == "" then "" else Lower(s[..|s| - 1]) + [LowerChar(s[|s| - 1])]
  }

  // ----- normalizing and splitting -----

  function Stripped(key: string): string {
    if key == "" then "" else
      var c := key[|key| - 1];
      Stripped(key[..|key| - 1]) + if Separator(c) then "" else [c]
  }

  function Normalize(key: string): string {
    Lower(Stripped(key))
  }

  /** A camelCase or acronym boundary just before position p: aA, or the last A of AAa. */
  predicate Boundary(key: string, p: nat) {
    && 0 < p < |key|
    && (((LowerLetter(key[p - 1]) || Names.IsDigit(key[p - 1])) && Upper(key[p]))
        || (Upper(key[p - 1]) && Upper(key[p]) && p + 1 < |key| && LowerLetter(key[p + 1])))
  }

  /** Does the splitting pattern match between or over the characters at p - 1 and p? */
  predicate SplitsBefore(key: string, p: nat)
    requires p < |key|
  {
    p == 0 || Separator(key[p - 1]) || Separator(key[p]) || Boundary(key, p)
  }

  /** The non-empty pieces of the first n characters; the last may still grow. */
  function Pieces(key: string, n: nat): seq<string>
    requires n <= |key|
  {
    if n == 0 then []
    else
      var ps := Pieces(key, n - 1);
      if Separator(key[n - 1]) then ps
      else if SplitsBefore(key, n - 1) || ps == [] then ps + [[key[n - 1]]]
      else ps[..|ps| - 1] + [ps[|ps| - 1] + [key[n - 1]]]
  }

  function LowerAll(ts: seq<string>): seq<string> {
    if ts == [] then [] else LowerAll(ts[..|ts| - 1]) + [Lower(ts[|ts| - 1])]
  }

  function Split(key: string): seq<string> {
    LowerAll(Pieces(key, |key|))
  }

  // ----- configuration -----

  datatype Config = Config(scrubDefaults: bool, sensitiveKeys: seq<string>, safeKeys: seq<string>, aggressive: bool)

  datatype Matcher = Matcher(keyTokens: set<string>, wholeKeys: set<string>, denylist: set<string>, safelist: set<string>, aggressive: bool)

  function NormalizedKeys(keys: seq<string>): set<string> {
    set k | k in keys && k != "" :: Normalize(k)
  }

  /** `__post_init__`. */
  function Compile(c: Config): Matcher {
    var tokens := (if c.scrubDefaults then DEFAULT_KEY_TOKENS else {}) - {""};
    var whole := (if c.scrubDefaults then DEFAULT_WHOLE_KEYS else {}) + NormalizedKeys(c.sensitiveKeys) - {""};
    Matcher(tokens, whole, tokens + whole, NormalizedKeys(c.safeKeys), c.aggressive)
  }

  // ----- the verdict -----

  predicate Contains(s: string, t: string) {
    exists i :: 0 <= i <= |s| - |t| && s[i..][..|t|] == t
  }

  /** Substring match on the normalized key. */
  predicate Aggressive(m: Matcher, nkey: string) {
    && (forall safe :: safe in m.safelist ==> !Contains(nkey, safe))
    && exists token :: token in m.denylist && Contains(nkey, token)
  }

  predicate TokensDecide(m: Matcher, tokens: seq<string>) {
    && (forall t :: t in tokens ==> t !in m.safelist)
    && exists t :: t in tokens && t in m.keyTokens
  }

  /** `_is_sensitive_key`, with its fast path for simple lowercase identifiers. */
  predicate Sensitive(m: Matcher, key: string) {
    var nkey := Normalize(key);
    if nkey == "" then false
    else if m.aggressive then Aggressive(m, nkey)
    else if nkey in m.safelist then false
    else if nkey in m.wholeKeys then true
    else if key == nkey then nkey in m.keyTokens
    else TokensDecide(m, Split(key))
  }

  /** The rule the fast path shortens: always split. */
  predicate SensitiveBySplitting(m: Matcher, key: string) {
    && Normalize(key) != ""
    && if m.aggressive then Aggressive(m, Normalize(key))
       else Normalize(key) !in m.safelist && (Normalize(key) in m.wholeKeys || TokensDecide(m, Split(key)))
  }

  // ----- the tokens are the normalized key -----

  lemma {:induction false} LowerAppend(s: string, t: string)
    ensures Lower(s + t) == Lower(s) + Lower(t)
  {
    if t == "" {
      assert s + t == s;
    } else {
      assert (s + t)[..|s + t| - 1] == s + t[..|t| - 1];
      LowerAppend(s, t[..|t| - 1]);
    }
  }

  /** Splitting loses no character but separators. */
  lemma {:induction false} PiecesConcat(key: string, n: nat)
    requires n <= |key|
    ensures Flatten(Pieces(key, n)) == Stripped(key[..n])
  {
    if n > 0 {
      PiecesConcat(key, n - 1);
      assert key[..n][..n - 1] == key[..n - 1];
      var ps, c := Pieces(key, n - 1), key[n - 1];
      FlattenLast(ps, [c]);
      if ps != [] {
        FlattenLast(ps[..|ps| - 1], ps[|ps| - 1] + [c]);
      }
    }
  }

  lemma {:induction false} LowerConcat(ts: seq<string>)
    ensures Flatten(LowerAll(ts)) == Lower(Flatten(ts))
  {
    if ts != [] {
      LowerConcat(ts[..|ts| - 1]);
      FlattenLast(LowerAll(ts[..|ts| - 1]), Lower(ts[|ts| - 1]));
      LowerAppend(Flatten(ts[..|ts| - 1]), ts[|ts| - 1]);
    }
  }

  /** The concatenated tokens are the normalized key. */
  lemma TokensConcatToNormalized(key: string)
    ensures Flatten(Split(key)) == Normalize(key)
  {
    PiecesConcat(key, |key|);
    assert key[..|key|] == key;
    LowerConcat(Pieces(key, |key|));
  }

  // ----- the fast path -----

  lemma {:induction false} LowerKeepsLength(s: string)
    ensures |Lower(s)| == |s|
    ensures forall i :: 0 <= i < |s| ==> Lower(s)[i] == LowerChar(s[i])
  {
    if s != "" { LowerKeepsLength(s[..|s| - 1]); }
  }

  lemma {:induction false} StrippedShorter(key: string)
    ensures |Stripped(key)| <= |key|
    ensures |Stripped(key)| == |key| ==> Stripped(key) == key && forall i :: 0 <= i < |key| ==> !Separator(key[i])
  {
    if key != "" {
      StrippedShorter(key[..|key| - 1]);
      assert key == key[..|key| - 1] + [key[|key| - 1]];
    }
  }

  /** A key equal to its normalized form has no separator and no capital. */
  lemma NormalizedKeyIsPlain(key: string)
    requires key == Normalize(key)
    ensures forall i :: 0 <= i < |key| ==> !Separator(key[i]) && !Upper(key[i])
  {
    LowerKeepsLength(Stripped(key));
    StrippedShorter(key);
  }

  lemma {:induction false} PlainPieces(key: string, n: nat)
    requires 0 < n <= |key| && forall i :: 0 <= i < |key| ==> !Separator(key[i]) && !Upper(key[i])
    ensures Pieces(key, n) == [key[..n]]
  {
    if n > 1 {
      PlainPieces(key, n - 1);
      assert key[..n - 1] + [key[n - 1]] == key[..n];
    } else {
      assert Pieces(key, 0) == [];
      assert [key[0]] == key[..1];
    }
  }

  lemma PlainKeyIsOneToken(key: string)
    requires key == Normalize(key) && key != ""
    ensures Split(key) == [key]
  {
    NormalizedKeyIsPlain(key);
    PlainPieces(key, |key|);
    assert key[..|key|] == key;
    LowerKeepsLength(key);
    assert Lower(key) == key;
    assert LowerAll([key]) == LowerAll([key][..0]) + [Lower(key)];
  }

  /** The fast path never changes the verdict. */
  lemma FastPathAgrees(m: Matcher, key: string)
    ensures Sensitive(m, key) <==> SensitiveBySplitting(m, key)
  {
    if key == Normalize(key) && key != "" {
      PlainKeyIsOneToken(key);
      assert key in [key];
    }
  }

  // ----- the aggressive matcher flags more -----

  lemma {:induction false} TokenInConcat(ts: seq<string>, t: string)
    requires t in ts
    ensures Contains(Flatten(ts), t)
  {
    var init, last := Flatten(ts[..|ts| - 1]), ts[|ts| - 1];
    if t == last {
      assert (init + last)[|init|..][..|t|] == t;
    } else {
      TokenInConcat(ts[..|ts| - 1], t);
      var i :| 0 <= i <= |init| - |t| && init[i..][..|t|] == t;
      assert (init + last)[i..][..|t|] == t;
    }
  }

  /** With no safe keys, the aggressive matcher flags every key the token-aware one flags. */
  lemma AggressiveFlagsMore(c: Config, key: string)
    requires NormalizedKeys(c.safeKeys) == {}
    requires Sensitive(Compile(c.(aggressive := false)), key)
    ensures Sensitive(Compile(c.(aggressive := true)), key)
  {
    var m, n := Compile(c.(aggressive := false)), Normalize(key);
    FastPathAgrees(m, key);
    if n in m.wholeKeys {
      assert n[0..][..|n|] == n;
    } else {
      var t :| t in Split(key) && t in m.keyTokens;
      TokenInConcat(Split(key), t);
      TokensConcatToNormalized(key);
    }
  }

  /** Naming more sensitive keys never unflags a key, under either matcher. */
  lemma MoreKeysFlagMore(c: Config, more: seq<string>, key: string)
    requires Sensitive(Compile(c), key)
    ensures Sensitive(Compile(c.(sensitiveKeys := c.sensitiveKeys + more)), key)
  {
    var m, n := Compile(c), Compile(c.(sensitiveKeys := c.sensitiveKeys + more));
    assert m.wholeKeys <= n.wholeKeys && m.denylist <= n.denylist && m.safelist == n.safelist && m.keyTokens == n.keyTokens;
    FastPathAgrees(m, key);
    FastPathAgrees(n, key);
  }

  /** An operator's own sensitive key is flagged however it is spelled, unless it is empty or a
      safe key exempts it. */
  lemma NamedKeysAreFlagged(c: Config, named: string, key: string)
    requires named in c.sensitiveKeys && Normalize(key) == Normalize(named) != ""
    ensures Sensitive(Compile(c), key) <==>
            if c.aggressive then forall safe :: safe in NormalizedKeys(c.safeKeys) ==> !Contains(Normalize(key), safe)
            else Normalize(key) !in NormalizedKeys(c.safeKeys)
  {
    var m, n := Compile(c), Normalize(key);
    assert named != "";
    assert n in m.wholeKeys && n in m.denylist;
    assert n[0..][..|n|] == n;
  }

  // ----- when a matcher is off -----

  /** No separator and no capital. */
  predicate Plain(s: string) {
    forall i :: 0 <= i < |s| ==> !Separator(s[i]) && !Upper(s[i])
  }

  lemma {:induction false} StrippedIsPlain(key: string)
    ensures forall i :: 0 <= i < |Stripped(key)| ==> !Separator(Stripped(key)[i])
  {
    if key != "" { StrippedIsPlain(key[..|key| - 1]); }
  }

  lemma NormalizedIsPlain(key: string)
    ensures Plain(Normalize(key))
  {
    StrippedIsPlain(key);
    LowerKeepsLength(Stripped(key));
  }

  lemma {:induction false} PlainIsNormalized(key: string)
    requires Plain(key)
    ensures Stripped(key) == key && Normalize(key) == key
  {
    LowerKeepsLength(key);
    if key != "" {
      PlainIsNormalized(key[..|key| - 1]);
      assert key[..|key| - 1] + [key[|key| - 1]] == key;
    }
    assert Lower(key) == key;
  }

  lemma DefaultTokensArePlain(t: string)
    requires t in DEFAULT_KEY_TOKENS
    ensures Plain(t)
  {
  }

  lemma DefaultWholeKeysArePlain(t: string)
    requires t in DEFAULT_WHOLE_KEYS
    ensures Plain(t)
  {
  }

  /** Every denylisted string is its own normalized form. */
  lemma DenylistIsNormalized(c: Config, t: string)
    requires t in Compile(c).denylist
    ensures t != "" && Normalize(t) == t
  {
    if t in NormalizedKeys(c.sensitiveKeys) {
      var k :| k in c.sensitiveKeys && t == Normalize(k);
      NormalizedIsPlain(k);
    } else {
      if t in DEFAULT_KEY_TOKENS { DefaultTokensArePlain(t); } else { DefaultWholeKeysArePlain(t); }
    }
    PlainIsNormalized(t);
  }

  lemma ContainsItself(s: string)
    ensures Contains(s, s)
  {
    assert s[0..][..|s|] == s;
  }

  lemma ContainsMore(s: string, t: string, u: string)
    requires Contains(s, t) && Contains(t, u)
    ensures Contains(s, u)
  {
    var i :| 0 <= i <= |s| - |t| && s[i..][..|t|] == t;
    var j :| 0 <= j <= |t| - |u| && t[j..][..|u|] == u;
    assert s[i + j..][..|u|] == s[i..][..|t|][j..][..|u|];
  }

  /** The aggressive matcher flags no key at all exactly if every denylisted string contains a safe key. */
  lemma AggressiveIsOffExactly(c: Config)
    requires c.aggressive
    ensures (forall key :: !Sensitive(Compile(c), key)) <==>
            (forall t :: t in Compile(c).denylist ==> exists safe :: safe in Compile(c).safelist && Contains(t, safe))
  {
    var m := Compile(c);
    if forall key :: !Sensitive(m, key) {
      forall t | t in m.denylist ensures exists safe :: safe in m.safelist && Contains(t, safe) {
        DenylistIsNormalized(c, t);
        ContainsItself(t);
        assert !Sensitive(m, t);
      }
    }
    if forall t :: t in m.denylist ==> exists safe :: safe in m.safelist && Contains(t, safe) {
      forall key ensures !Sensitive(m, key) {
        SafeInEveryMatch(m, key);
      }
    }
  }

  lemma SafeInEveryMatch(m: Matcher, key: string)
    requires m.aggressive && forall t :: t in m.denylist ==> exists safe :: safe in m.safelist && Contains(t, safe)
    ensures !Sensitive(m, key)
  {
    var n := Normalize(key);
    if t :| t in m.denylist && Contains(n, t) {
      var safe :| safe in m.safelist && Contains(t, safe);
      ContainsMore(n, t, safe);
    }
  }

  /** The token-aware matcher flags no key at all exactly if every denylisted string is a safe key. */
  lemma TokenAwareIsOffExactly(c: Config)
    requires !c.aggressive
    ensures (forall key :: !Sensitive(Compile(c), key)) <==> Compile(c).denylist <= Compile(c).safelist
  {
    var m := Compile(c);
    if forall key :: !Sensitive(m, key) {
      forall t | t in m.denylist ensures t in m.safelist {
        DenylistIsNormalized(c, t);
        assert !Sensitive(m, t);
      }
    }
    if m.denylist <= m.safelist {
      forall key ensures !Sensitive(m, key) {
        FastPathAgrees(m, key);
      }
    }
  }

  /** A safe key made only of separators normalizes to nothing, is contained in every denylisted
      string, and so switches the aggressive matcher off altogether. */
  lemma EmptySafeKeyDisablesAggressive(c: Config, safe: string, key: string)
    requires c.aggressive && safe in c.safeKeys && safe != "" && Normalize(safe) == ""
    ensures !Sensitive(Compile(c), key)
  {
    var m := Compile(c);
    assert "" in m.safelist;
    forall t | t in m.denylist ensures exists safe :: safe in m.safelist && Contains(t, safe) {
      assert t[0..][..0] == "";
    }
    SafeInEveryMatch(m, key);
  }
}
