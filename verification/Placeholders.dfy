/**
 * Placeholders of the form `<TYPE_n>` and the restore pass over them
 * (deploy/litellm/klai_pii_text_masking.py).
 *
 * `Restore` follows the regular-expression scan. `Replace` is the simple form the proofs use:
 * it knows nothing about the shape of a token and replaces the keys of one map from left to right.
 */
module Placeholders {
  import opened Sequences
  import opened Strings

  predicate IsUpper(c: char) { 'A' <= c <= 'Z' }

  predicate IsDigit(c: char) { '0' <= c <= '9' }

  predicate IsTypeChar(c: char) { IsUpper(c) || IsDigit(c) || c == '_' }

  /** `[A-Z][A-Z0-9_]*` */
  predicate IsTypeName(s: string) {
    && |s| > 0
    && IsUpper(s[0])
    && forall i :: 0 <= i < |s| ==> IsTypeChar(s[i])
  }

  /** `\d+` */
  predicate IsNumber(s: string) {
    |s| > 0 && forall i :: 0 <= i < |s| ==> IsDigit(s[i])
  }

  /** `t` reads `<` type `_` number `>` with the separating underscore at `u`. */
  predicate SplitsAt(t: string, u: int) {
    && 2 <= u < |t| - 2
    && t[0] == '<' && t[u] == '_' && t[|t| - 1] == '>'
    && IsTypeName(t[1..u])
    && IsNumber(t[u + 1..|t| - 1])
  }

  /** The whole of `t` matches `<([A-Z][A-Z0-9_]*)_(\d+)>`. */
  predicate IsPlaceholder(t: string) {
    exists u | 0 <= u < |t| :: SplitsAt(t, u)
  }

  function LastUnderscore(t: string): (r: int)
    ensures -1 <= r < |t|
  {
    if t == "" then -1
    else if t[|t| - 1] == '_' then |t| - 1
    else LastUnderscore(t[..|t| - 1])
  }

  lemma {:induction false} LastUnderscoreIs(t: string, u: nat)
    requires u < |t| && t[u] == '_'
    requires forall i :: u < i < |t| ==> t[i] != '_'
    ensures LastUnderscore(t) == u
  {
    if u < |t| - 1 {
      LastUnderscoreIs(t[..|t| - 1], u);
    }
  }

  /** The first group of the match: everything up to the last underscore, as greedy matching finds it. */
  function EntityType(t: string): string
  {
    var u := LastUnderscore(t);
    if u < 1 then "" else t[1..u]
  }

  /** The two groups of a match are unique: greedy backtracking has only one way to split a token. */
  lemma TokenSplitsOnce(t: string, u: int)
    requires SplitsAt(t, u)
    ensures EntityType(t) == t[1..u]
  {
    forall i | u < i < |t| ensures t[i] != '_' {
      if i < |t| - 1 {
        assert t[i] == t[u + 1..|t| - 1][i - u - 1];
      }
    }
    LastUnderscoreIs(t, u);
  }

  /** `t` opens with its only `<` and closes with its only `>`. */
  predicate Bracketed(t: string) {
    && |t| >= 2
    && t[0] == '<' && t[|t| - 1] == '>'
    && forall i :: 0 < i < |t| - 1 ==> t[i] != '<' && t[i] != '>'
  }

  /** Every token holds exactly one `<`, its first character, and one `>`, its last; so tokens never overlap. */
  lemma TokenIsBracketed(t: string)
    requires IsPlaceholder(t)
    ensures Bracketed(t)
  {
    var u :| 0 <= u < |t| && SplitsAt(t, u);
    forall i | 0 < i < |t| - 1 ensures t[i] != '<' && t[i] != '>' {
      if i < u {
        assert IsTypeChar(t[1..u][i - 1]);
      } else if i > u {
        assert t[i] == t[u + 1..|t| - 1][i - u - 1];
      }
    }
  }

  /** The length of the token `text` starts with, or 0. A match cannot run past the first `>`. */
  function TokenLength(text: string): (n: nat)
    ensures n <= |text|
    ensures n > 0 ==> IsPlaceholder(text[..n])
  {
    var e := IndexOf(text, '>');
    if e >= 0 && IsPlaceholder(text[..e + 1]) then e + 1 else 0
  }

  /** What the pattern matches: a type name that starts with a capital, an underscore and digits, in brackets. */
  lemma PlaceholderIsExact(t: string)
    ensures IsPlaceholder(t) <==> exists name, digits :: Spells(t, name, digits)
  {
    if IsPlaceholder(t) {
      var u :| SplitsAt(t, u);
      SplitSpells(t, u);
    }
    if name, digits :| Spells(t, name, digits) {
      SpellsSplits(t, name, digits);
    }
  }

  lemma SplitSpells(t: string, u: int)
    requires SplitsAt(t, u)
    ensures exists name, digits :: Spells(t, name, digits)
  {
    assert t == "<" + t[1..u] + "_" + t[u + 1..|t| - 1] + ">";
    assert Spells(t, t[1..u], t[u + 1..|t| - 1]);
  }

  lemma SpellsSplits(t: string, name: string, digits: string)
    requires Spells(t, name, digits)
    ensures SplitsAt(t, |name| + 1)
  {
    var u := |name| + 1;
    assert |t| == u + |digits| + 2;
    assert t[1..u] == name && t[u + 1..|t| - 1] == digits;
  }

  ghost predicate Spells(t: string, name: string, digits: string) {
    && t == "<" + name + "_" + digits + ">"
    && name != "" && 'A' <= name[0] <= 'Z'
    && (forall i :: 0 <= i < |name| ==> 'A' <= name[i] <= 'Z' || '0' <= name[i] <= '9' || name[i] == '_')
    && digits != "" && forall i :: 0 <= i < |digits| ==> '0' <= digits[i] <= '9'
  }

  /** What one match is replaced by. */
  function Substitute(token: string, restoreMap: map<string, string>, neverRestore: set<string>): string {
    if EntityType(token) in neverRestore then token
    else if token in restoreMap then restoreMap[token]
    else token
  }

  /** `restore_text`: one left-to-right pass, every match substituted, everything else copied. */
  function Restore(text: string, restoreMap: map<string, string>, neverRestore: set<string>): string
    decreases |text|
  {
    if text == "" then ""
    else
      var n := TokenLength(text);
      if n > 0 then Substitute(text[..n], restoreMap, neverRestore) + Restore(text[n..], restoreMap, neverRestore)
      else [text[0]] + Restore(text[1..], restoreMap, neverRestore)
  }

  /** The entries of a restore map that the pass can ever use. */
  function Live(restoreMap: map<string, string>, neverRestore: set<string>): map<string, string> {
    map k | k in restoreMap && IsPlaceholder(k) && EntityType(k) !in neverRestore :: restoreMap[k]
  }

  ghost predicate Shaped(live: map<string, string>) {
    forall k :: k in live ==> Bracketed(k)
  }

  lemma LiveIsShaped(restoreMap: map<string, string>, neverRestore: set<string>)
    ensures Shaped(Live(restoreMap, neverRestore))
  {
    forall k | k in Live(restoreMap, neverRestore) ensures Bracketed(k) {
      TokenIsBracketed(k);
    }
  }

  /** The length of the key `text` starts with, or 0. */
  function KeyLength(text: string, live: map<string, string>): (n: nat)
    ensures n <= |text|
    ensures n > 0 ==> text[..n] in live
  {
    var e := IndexOf(text, '>');
    if e >= 0 && text[..e + 1] in live then e + 1 else 0
  }

  /** A text that begins with a bracketed one has its first `>` there. */
  lemma TokenEnd(t: string, text: string)
    requires Bracketed(t) && t <= text
    ensures IndexOf(text, '>') == |t| - 1 && text[..|t|] == t
  {
    assert text[|t| - 1] == t[|t| - 1];
    forall i | 0 <= i < |t| - 1 ensures text[i] != '>' {
      assert text[i] == t[i];
    }
    IndexOfIs(text, '>', |t| - 1);
  }

  lemma KeyLengthIs(text: string, live: map<string, string>, k: string)
    requires Shaped(live) && k in live && k <= text
    ensures KeyLength(text, live) == |k| && text[..|k|] == k
  {
    TokenEnd(k, text);
  }

  /** Replace the keys of `live` from left to right and copy the rest. */
  function Replace(text: string, live: map<string, string>): string
    decreases |text|
  {
    if text == "" then ""
    else
      var n := KeyLength(text, live);
      if n > 0 then live[text[..n]] + Replace(text[n..], live)
      else [text[0]] + Replace(text[1..], live)
  }

  lemma ReplaceUnfolds(text: string, live: map<string, string>)
    ensures text == "" ==> Replace(text, live) == ""
    ensures text != "" ==>
      var n := KeyLength(text, live);
      Replace(text, live) == if n > 0 then live[text[..n]] + Replace(text[n..], live)
                             else [text[0]] + Replace(text[1..], live)
  {
    hide KeyLength;
  }

  /** One step of `Replace` at a key. */
  lemma ReplaceKey(k: string, w: string, live: map<string, string>)
    requires Shaped(live) && k in live
    ensures Replace(k + w, live) == live[k] + Replace(w, live)
  {
    KeyLengthIs(k + w, live, k);
    assert (k + w)[|k|..] == w;
  }

  /** One step of `Replace` where no key starts. */
  lemma ReplaceChar(x: char, w: string, live: map<string, string>)
    requires forall k :: k in live ==> !(k <= [x] + w)
    ensures Replace([x] + w, live) == [x] + Replace(w, live)
  {
    var s := [x] + w;
    assert KeyLength(s, live) == 0 by {
      assert s[..KeyLength(s, live)] <= s;
    }
    assert s[1..] == w;
  }

  /** Text without a `<` holds no key start: it is copied whatever follows. */
  lemma {:induction false} ReplaceCopies(p: string, w: string, live: map<string, string>)
    requires Shaped(live) && '<' !in p
    ensures Replace(p + w, live) == p + Replace(w, live)
  {
    if p == "" {
      assert p + w == w;
    } else {
      assert p[0] in p;
      forall x | x in p[1..] ensures x in p {}
      ReplaceCopies(p[1..], w, live);
      ReplaceChar(p[0], p[1..] + w, live);
      assert p + w == [p[0]] + (p[1..] + w);
    }
  }

  lemma BracketedParts(t: string)
    requires Bracketed(t)
    ensures t != "" && '<' !in t[1..]
  {
  }

  /** Of two bracketed texts at one place neither is longer. */
  lemma OneTokenAtAPlace(a: string, b: string, s: string)
    requires Bracketed(a) && Bracketed(b) && a <= s && b <= s
    ensures a == b
  {
    hide Bracketed;
    TokenEnd(a, s);
    TokenEnd(b, s);
  }

  lemma NoKeyInFront(t: string, w: string, live: map<string, string>)
    requires Shaped(live) && Bracketed(t) && t !in live
    ensures forall k :: k in live ==> !(k <= t + w)
  {
    forall k | k in live ensures !(k <= t + w) {
      if k <= t + w {
        OneTokenAtAPlace(k, t, t + w);
      }
    }
  }

  /** A bracketed token that is not a key is copied as a whole. */
  lemma ReplaceSkips(t: string, w: string, live: map<string, string>)
    requires Shaped(live) && Bracketed(t) && t !in live
    ensures Replace(t + w, live) == t + Replace(w, live)
  {
    hide Replace, Shaped, Bracketed;
    BracketedParts(t);
    NoKeyInFront(t, w, live);
    HeadAndTail(t);
    Associates([t[0]], t[1..], w);
    ReplaceChar(t[0], t[1..] + w, live);
    ReplaceCopies(t[1..], w, live);
    Associates([t[0]], t[1..], Replace(w, live));
  }

  /** The regular-expression pass is the simple replacement of the usable map entries. */
  lemma {:induction false} RestoreIsReplace(text: string, restoreMap: map<string, string>, neverRestore: set<string>)
    ensures Restore(text, restoreMap, neverRestore) == Replace(text, Live(restoreMap, neverRestore))
    decreases |text|
  {
    var live := Live(restoreMap, neverRestore);
    LiveIsShaped(restoreMap, neverRestore);
    if text != "" {
      var n := TokenLength(text);
      if n > 0 {
        var t, w := text[..n], text[n..];
        assert text == t + w;
        RestoreIsReplace(w, restoreMap, neverRestore);
        if t in live {
          ReplaceKey(t, w, live);
        } else {
          TokenIsBracketed(t);
          ReplaceSkips(t, w, live);
        }
      } else {
        RestoreIsReplace(text[1..], restoreMap, neverRestore);
        assert KeyLength(text, live) == 0;
      }
    }
  }

  /** No key starts anywhere in `s`. */
  ghost predicate NoKeys(s: string, live: map<string, string>) {
    forall i, k :: 0 <= i <= |s| && k in live ==> !(k <= s[i..])
  }

  lemma NoKeysSuffix(s: string, i: nat, live: map<string, string>)
    requires NoKeys(s, live) && i <= |s|
    ensures NoKeys(s[i..], live)
  {
    forall j, k | 0 <= j <= |s[i..]| && k in live ensures !(k <= s[i..][j..]) {
      assert s[i..][j..] == s[i + j..];
    }
  }

  lemma {:induction false} ReplaceWithoutKeys(s: string, live: map<string, string>)
    requires Shaped(live) && NoKeys(s, live)
    ensures Replace(s, live) == s
  {
    if s != "" {
      assert KeyLength(s, live) == 0 by {
        assert s[0..] == s;
      }
      NoKeysSuffix(s, 1, live);
      ReplaceWithoutKeys(s[1..], live);
    }
  }
}
