/** `renderValue` of catalog/runtime.go on one string: `${key}` tokens replaced variable by variable,
    in the arbitrary order a Go map is iterated in, against one simultaneous substitution. */
module Templates {

  function Token(key: string): string {
    "${" + key + "}"
  }

  /** Neither `$`, `}` nor a blank occurs in a variable name. */
  predicate PlainKey(key: string) {
    '$' !in key && '}' !in key && ' ' !in key
  }

  predicate PlainKeys(keys: set<string>) {
    forall k | k in keys :: PlainKey(k)
  }

  type Vars = map<string, string>

  predicate DollarFree(vars: Vars) {
    forall k | k in vars :: '$' !in vars[k]
  }

  /** Go's `strings.ReplaceAll` for a non-empty pattern: leftmost occurrences that do not overlap. */
  function ReplaceAll(s: string, pattern: string, value: string): string
    requires pattern != []
    decreases |s|
  {
    if s == [] then []
    else if pattern <= s then value + ReplaceAll(s[|pattern|..], pattern, value)
    else [s[0]] + ReplaceAll(s[1..], pattern, value)
  }

  /** The loop over the variables, in the order given. */
  function Sequential(s: string, order: seq<string>, vars: Vars): string
    requires forall k | k in order :: k in vars
    decreases |order|
  {
    if order == [] then s
    else Sequential(ReplaceAll(s, Token(order[0]), vars[order[0]]), order[1..], vars)
  }

  predicate HasToken(s: string, keys: set<string>) {
    exists k | k in keys :: Token(k) <= s
  }

  ghost function TokenAt(s: string, keys: set<string>): (k: string)
    requires HasToken(s, keys)
    ensures k in keys && Token(k) <= s
  {
    var k :| k in keys && Token(k) <= s;
    k
  }

  /** Every token of the original string replaced at once; the values are not looked at again. */
  ghost function Simultaneous(s: string, keys: set<string>, vars: Vars): string
    requires keys <= vars.Keys
    decreases |s|
  {
    if s == [] then []
    else if HasToken(s, keys) then
      var k := TokenAt(s, keys);
      vars[k] + Simultaneous(s[|Token(k)|..], keys, vars)
    else [s[0]] + Simultaneous(s[1..], keys, vars)
  }

  /** A hazard at the start of `s`: an unfinished token of one variable directly before a whole token
      of another, whose value could finish it. */
  ghost predicate Hazard(s: string, keys: set<string>) {
    exists n: nat, j, k :: HazardOf(s, keys, n, j, k)
  }

  predicate HazardOf(s: string, keys: set<string>, n: nat, j: string, k: string) {
    && j in keys && k in keys && j != k
    && 0 < n < |Token(j)| && n <= |s|
    && s[..n] == Token(j)[..n] && Token(k) <= s[n..]
  }

  /** No position of the template is hazardous. */
  ghost predicate Clear(s: string, keys: set<string>) {
    forall i | 0 <= i <= |s| :: !Hazard(s[i..], keys)
  }

  /** `order` lists every key once. */
  ghost predicate Enumerates(order: seq<string>, keys: set<string>) {
    && (forall k :: k in order <==> k in keys)
    && (forall i, j | 0 <= i < j < |order| :: order[i] != order[j])
  }

  // ---- tokens -------------------------------------------------------------------------------

  lemma TokenShape(k: string)
    requires PlainKey(k)
    ensures var t := Token(k);
            && |t| == |k| + 3 && t[0] == '$' && t[|t| - 1] == '}'
            && (forall i :: 0 < i < |t| ==> t[i] != '$')
            && (forall i :: 0 <= i < |t| - 1 ==> t[i] != '}')
  {
    var t := Token(k);
    assert forall i :: 2 <= i < |t| - 1 ==> t[i] == k[i - 2];
  }

  /** At most one variable's token starts at a given place. */
  lemma TokenUnique(s: string, j: string, k: string)
    requires PlainKey(j) && PlainKey(k) && Token(j) <= s && Token(k) <= s
    ensures j == k
  {
    TokenShape(j);
    TokenShape(k);
    assert forall i :: 0 <= i < |Token(j)| ==> s[i] == Token(j)[i];
    assert forall i :: 0 <= i < |Token(k)| ==> s[i] == Token(k)[i];
    assert s[|Token(j)| - 1] == '}' && s[|Token(k)| - 1] == '}';
    assert |Token(j)| == |Token(k)|;
    assert Token(j) == Token(k);
    assert Token(j)[2..|Token(j)| - 1] == j && Token(k)[2..|Token(k)| - 1] == k;
  }

  /** A token starting anywhere but at its own `$` would need a second one. */
  lemma NoTokenInside(s: string, k: string, i: nat)
    requires PlainKey(k) && i < |s| && s[i] != '$'
    ensures !(Token(k) <= s[i..])
  {
    TokenShape(k);
  }

  lemma SuffixClear(s: string, keys: set<string>, i: nat)
    requires Clear(s, keys) && i <= |s|
    ensures Clear(s[i..], keys)
  {
    forall a | 0 <= a <= |s[i..]| ensures !Hazard(s[i..][a..], keys) {
      assert s[i..][a..] == s[i + a..];
    }
  }

  // ---- replacing past text that holds no token ----------------------------------------------

  lemma {:induction false} ReplaceAfterPlain(u: string, s: string, k: string, v: string)
    requires PlainKey(k) && '$' !in u
    ensures ReplaceAll(u + s, Token(k), v) == u + ReplaceAll(s, Token(k), v)
  {
    if u == [] {
      assert u + s == s;
      assert u + ReplaceAll(s, Token(k), v) == ReplaceAll(s, Token(k), v);
    } else {
      NoTokenInside(u + s, k, 0);
      assert (u + s)[0..] == u + s;
      assert (u + s)[1..] == u[1..] + s;
      ReplaceAfterPlain(u[1..], s, k, v);
    }
  }

  lemma {:induction false} SimultaneousAfterPlain(u: string, s: string, keys: set<string>, vars: Vars)
    requires PlainKeys(keys) && keys <= vars.Keys && '$' !in u
    ensures Simultaneous(u + s, keys, vars) == u + Simultaneous(s, keys, vars)
  {
    if u == [] {
      assert u + s == s;
    } else {
      forall k | k in keys ensures !(Token(k) <= u + s) {
        assert (u + s)[0..] == u + s;
        NoTokenInside(u + s, k, 0);
      }
      assert (u + s)[1..] == u[1..] + s;
      SimultaneousAfterPlain(u[1..], s, keys, vars);
    }
  }

  /** Replacing `k` steps over a whole token of another variable. */
  lemma ReplaceAfterToken(s: string, j: string, k: string, v: string)
    requires PlainKey(j) && PlainKey(k) && j != k && Token(j) <= s
    ensures ReplaceAll(s, Token(k), v) == Token(j) + ReplaceAll(s[|Token(j)|..], Token(k), v)
  {
    TokenShape(j);
    assert !(Token(k) <= s) by { if Token(k) <= s { TokenUnique(s, j, k); } }
    var u, rest := Token(j)[1..], s[|Token(j)|..];
    assert Token(j) == [s[0]] + u && s == Token(j) + rest;
    assert s[1..] == u + rest;
    assert ReplaceAll(s, Token(k), v) == [s[0]] + ReplaceAll(u + rest, Token(k), v);
    assert '$' !in u;
    ReplaceAfterPlain(u, rest, k, v);
    var r := ReplaceAll(rest, Token(k), v);
    assert [s[0]] + (u + r) == [s[0]] + u + r;
  }

  /** Replacing `k` leaves everything before the first token of `k` as it was. */
  lemma {:induction false} ReplaceBefore(s: string, k: string, v: string, n: nat)
    requires PlainKey(k) && n <= |s| && forall i | 0 <= i < n :: !(Token(k) <= s[i..])
    ensures ReplaceAll(s, Token(k), v) == s[..n] + ReplaceAll(s[n..], Token(k), v)
  {
    if n == 0 {
      assert s[..0] == [] && s[0..] == s;
    } else {
      assert s[0..] == s;
      forall i | 0 <= i < n - 1 ensures !(Token(k) <= s[1..][i..]) { assert s[1..][i..] == s[i + 1..]; }
      ReplaceBefore(s[1..], k, v, n - 1);
      assert s[1..][..n - 1] == s[1..n] && s[1..][n - 1..] == s[n..];
      assert s[..n] == [s[0]] + s[1..n];
    }
  }

  /** The first place, if any before `n`, where a token of `k` starts. */
  lemma {:induction false} FirstToken(s: string, k: string, n: nat) returns (m: nat)
    requires n <= |s|
    ensures m <= n
    ensures forall i | 0 <= i < m :: !(Token(k) <= s[i..])
    ensures m < n ==> Token(k) <= s[m..]
  {
    m := 0;
    while m < n && !(Token(k) <= s[m..])
      invariant m <= n
      invariant forall i | 0 <= i < m :: !(Token(k) <= s[i..])
    {
      m := m + 1;
    }
  }

  /** What replacing `k` can do to the text `x` at the start of a string: nothing, or a token of `k`
      stood inside it. */
  lemma ReplacedText(s: string, k: string, v: string, x: string) returns (m: nat)
    requires PlainKey(k) && x <= ReplaceAll(s, Token(k), v)
    ensures x <= s || (m < |x| && m <= |s| && s[..m] == x[..m] && Token(k) <= s[m..])
  {
    var n := if |x| < |s| then |x| else |s|;
    m := FirstToken(s, k, n);
    ReplaceBefore(s, k, v, m);
    if m == n {
      assert n == |s| ==> s[m..] == [] && ReplaceAll(s, Token(k), v) == s;
      assert x == s[..m];
    } else {
      var r := ReplaceAll(s, Token(k), v);
      assert r[..m] == s[..m] && x[..m] == r[..m];
    }
  }

  // ---- one variable at a time ---------------------------------------------------------------

  /** A token of `j` that replacing `k` brings about comes from a hazard. */
  lemma NewTokenHadHazard(s: string, keys: set<string>, j: string, k: string, v: string)
    requires PlainKeys(keys) && j in keys && k in keys && j != k
    requires s != [] && !(Token(j) <= s) && !(Token(k) <= s) && Token(j) <= ReplaceAll(s, Token(k), v)
    ensures exists i | 0 <= i <= |s| :: Hazard(s[i..], keys)
  {
    var m := ReplacedText(s, k, v, Token(j));
    assert s[0..] == s;
    assert HazardOf(s[0..], keys, m, j, k);
    assert Hazard(s[0..], keys);
  }

  /** Without a hazard, replacing one variable makes no new token of another. */
  lemma NoNewToken(s: string, keys: set<string>, j: string, k: string, v: string)
    requires PlainKeys(keys) && Clear(s, keys) && j in keys && k in keys && j != k
    requires s != [] && !(Token(j) <= s) && !(Token(k) <= s)
    ensures !(Token(j) <= ReplaceAll(s, Token(k), v))
  {
    if Token(j) <= ReplaceAll(s, Token(k), v) { NewTokenHadHazard(s, keys, j, k, v); }
  }

  /** Replacing one variable and then the rest simultaneously is replacing all of them simultaneously. */
  lemma {:induction false} OneThenRest(s: string, keys: set<string>, vars: Vars, k: string)
    requires PlainKeys(keys) && keys <= vars.Keys && DollarFree(vars) && k in keys && Clear(s, keys)
    ensures Simultaneous(ReplaceAll(s, Token(k), vars[k]), keys - {k}, vars) == Simultaneous(s, keys, vars)
    decreases |s|
  {
    var v, t, rest := vars[k], Token(k), keys - {k};
    if s == [] {
    } else if t <= s {
      SuffixClear(s, keys, |t|);
      OneThenRest(s[|t|..], keys, vars, k);
      SimultaneousAfterPlain(v, ReplaceAll(s[|t|..], t, v), rest, vars);
      TokenUnique(s, k, TokenAt(s, keys));
    } else if HasToken(s, keys) {
      var j := TokenAt(s, keys);
      SuffixClear(s, keys, |Token(j)|);
      OneThenRest(s[|Token(j)|..], keys, vars, k);
      ReplaceAfterToken(s, j, k, v);
      var r := ReplaceAll(s, t, v);
      assert Token(j) <= r && j in rest;
      TokenUnique(r, j, TokenAt(r, rest));
      assert r[|Token(j)|..] == ReplaceAll(s[|Token(j)|..], t, v);
    } else {
      SuffixClear(s, keys, 1);
      OneThenRest(s[1..], keys, vars, k);
      var r := ReplaceAll(s, t, v);
      assert !HasToken(r, rest) by {
        if j :| j in rest && Token(j) <= r { NoNewToken(s, keys, j, k, v); }
      }
      assert r[1..] == ReplaceAll(s[1..], t, v);
    }
  }

  lemma HazardStartsWithDollar(s: string, keys: set<string>)
    requires Hazard(s, keys)
    ensures s != [] && s[0] == '$'
  {
    var n: nat, j, k :| HazardOf(s, keys, n, j, k);
    assert s[..n][0] == Token(j)[..n][0] == '$';
  }

  lemma EmptyIsClear(keys: set<string>)
    ensures Clear([], keys)
  {
    var s: string := [];
    assert forall i | 0 <= i <= |s| :: s[i..] == s;
  }

  lemma ClearAfterPlain(u: string, s: string, keys: set<string>)
    requires '$' !in u && Clear(s, keys)
    ensures Clear(u + s, keys)
  {
    forall i | 0 <= i <= |u + s| ensures !Hazard((u + s)[i..], keys) {
      if i < |u| {
        if Hazard((u + s)[i..], keys) { HazardStartsWithDollar((u + s)[i..], keys); }
      } else {
        assert (u + s)[i..] == s[i - |u|..];
      }
    }
  }

  /** A hazard at the start after replacing `k` comes from a hazard before. */
  lemma NewHazardHadHazard(s: string, keys: set<string>, k: string, v: string, n: nat, j: string, a: string)
    requires PlainKeys(keys) && k in keys && !(Token(k) <= s)
    requires HazardOf(ReplaceAll(s, Token(k), v), keys - {k}, n, j, a)
    ensures exists i | 0 <= i <= |s| :: Hazard(s[i..], keys)
  {
    var r, x := ReplaceAll(s, Token(k), v), Token(j)[..n] + Token(a);
    assert r == r[..n] + r[n..];
    assert x <= r;
    var m := ReplacedText(s, k, v, x);
    assert s[0..] == s;
    if x <= s {
      assert s[..n] == Token(j)[..n] && Token(a) <= s[n..];
      assert HazardOf(s[0..], keys, n, j, a);
      assert Hazard(s[0..], keys);
    } else if m <= n {
      assert s[..m] == Token(j)[..m];
      assert HazardOf(s[0..], keys, m, j, k);
      assert Hazard(s[0..], keys);
    } else {
      assert s[n..][..m - n] == Token(a)[..m - n] by {
        assert s[n..][..m - n] == s[..m][n..] && x[..m][n..] == x[n..][..m - n] && x[n..] == Token(a);
      }
      assert s[n..][m - n..] == s[m..];
      assert HazardOf(s[n..], keys, m - n, a, k);
      assert Hazard(s[n..], keys);
    }
  }

  /** Replacing a variable leads to no hazard at the start of a string it does not start. */
  lemma NoNewHazard(s: string, keys: set<string>, k: string, v: string)
    requires PlainKeys(keys) && k in keys && Clear(s, keys) && !(Token(k) <= s)
    ensures !Hazard(ReplaceAll(s, Token(k), v), keys - {k})
  {
    if n: nat, j, a :| HazardOf(ReplaceAll(s, Token(k), v), keys - {k}, n, j, a) {
      NewHazardHadHazard(s, keys, k, v, n, j, a);
    }
  }

  lemma {:induction false} ReplaceKeepsClear(s: string, keys: set<string>, k: string, v: string)
    requires PlainKeys(keys) && k in keys && Clear(s, keys) && '$' !in v
    ensures Clear(ReplaceAll(s, Token(k), v), keys - {k})
    decreases |s|
  {
    var t, r := Token(k), ReplaceAll(s, Token(k), v);
    if s == [] {
      EmptyIsClear(keys - {k});
    } else if t <= s {
      SuffixClear(s, keys, |t|);
      ReplaceKeepsClear(s[|t|..], keys, k, v);
      ClearAfterPlain(v, ReplaceAll(s[|t|..], t, v), keys - {k});
    } else {
      SuffixClear(s, keys, 1);
      ReplaceKeepsClear(s[1..], keys, k, v);
      NoNewHazard(s, keys, k, v);
      forall i | 0 <= i <= |r| ensures !Hazard(r[i..], keys - {k}) {
        if i == 0 { assert r[0..] == r; } else { assert r[i..] == ReplaceAll(s[1..], t, v)[i - 1..]; }
      }
    }
  }

  lemma {:induction false} NoKeysNoChange(s: string, vars: Vars)
    ensures Simultaneous(s, {}, vars) == s
    decreases |s|
  {
    if s == [] {
    } else {
      NoKeysNoChange(s[1..], vars);
    }
  }

  /** Render determinism for one string: on a clear template with `$`-free values, replacing the
      variables one after another in any order is one simultaneous substitution. */
  lemma {:induction false} SequentialIsSimultaneous(s: string, order: seq<string>, keys: set<string>, vars: Vars)
    requires PlainKeys(keys) && keys <= vars.Keys && DollarFree(vars)
    requires Enumerates(order, keys) && Clear(s, keys)
    ensures Sequential(s, order, vars) == Simultaneous(s, keys, vars)
    decreases |order|
  {
    if order == [] {
      assert keys == {};
      NoKeysNoChange(s, vars);
    } else {
      var k := order[0];
      ReplaceKeepsClear(s, keys, k, vars[k]);
      OneThenRest(s, keys, vars, k);
      forall x ensures x in order[1..] <==> x in keys - {k} {
        if x in order && x != k {
          var i :| 0 <= i < |order| && order[i] == x;
          assert order[1..][i - 1] == x;
        }
        if x in order[1..] {
          var i :| 0 <= i < |order[1..]| && order[1..][i] == x;
          assert order[i + 1] == x && order[0] != order[i + 1];
        }
      }
      assert Enumerates(order[1..], keys - {k});
      SequentialIsSimultaneous(ReplaceAll(s, Token(k), vars[k]), order[1..], keys - {k}, vars);
    }
  }

  /** The loop of `renderValue` on a string. */
  method RenderString(s: string, order: seq<string>, vars: Vars) returns (out: string)
    requires PlainKeys(vars.Keys) && Enumerates(order, vars.Keys)
    ensures out == Sequential(s, order, vars)
    ensures DollarFree(vars) && Clear(s, vars.Keys) ==> out == Simultaneous(s, vars.Keys, vars)
  {
    out := s;
    for i := 0 to |order|
      invariant Sequential(out, order[i..], vars) == Sequential(s, order, vars)
    {
      assert order[i..][0] == order[i] && order[i..][1..] == order[i + 1..];
      out := ReplaceAll(out, Token(order[i]), vars[order[i]]);
    }
    if DollarFree(vars) && Clear(s, vars.Keys) { SequentialIsSimultaneous(s, order, vars.Keys, vars); }
  }

  // ---- why a clear template -----------------------------------------------------------------

  function Dollars(s: string): nat {
    if s == [] then 0 else (if s[0] == '$' then 1 else 0) + Dollars(s[1..])
  }

  /** The number of tokens of `k` in `s`; tokens never overlap. */
  function Occurrences(s: string, k: string): nat
    decreases |s|
  {
    if s == [] then 0
    else if Token(k) <= s then 1 + Occurrences(s[|Token(k)|..], k)
    else Occurrences(s[1..], k)
  }

  lemma {:induction false} DollarsAppend(s: string, t: string)
    ensures Dollars(s + t) == Dollars(s) + Dollars(t)
  {
    if s == [] {
      assert s + t == t;
    } else {
      assert (s + t)[1..] == s[1..] + t;
      DollarsAppend(s[1..], t);
    }
  }

  lemma {:induction false} NoDollars(s: string)
    requires '$' !in s
    ensures Dollars(s) == 0
  {
    if s == [] {
    } else {
      NoDollars(s[1..]);
    }
  }

  lemma {:induction false} ReplaceCountsTokens(s: string, k: string, v: string)
    requires PlainKey(k) && '$' !in v
    ensures Dollars(ReplaceAll(s, Token(k), v)) + Occurrences(s, k) == Dollars(s)
    decreases |s|
  {
    var t := Token(k);
    if s == [] {
    } else if t <= s {
      TokenShape(k);
      ReplaceCountsTokens(s[|t|..], k, v);
      DollarsAppend(v, ReplaceAll(s[|t|..], t, v));
      NoDollars(v);
      assert s == [t[0]] + t[1..] + s[|t|..];
      DollarsAppend([t[0]] + t[1..], s[|t|..]);
      DollarsAppend([t[0]], t[1..]);
      NoDollars(t[1..]);
    } else {
      ReplaceCountsTokens(s[1..], k, v);
      var r := ReplaceAll(s[1..], t, v);
      assert ([s[0]] + r)[1..] == r;
    }
  }

  /** Text in which no token of `j` starts counts for nothing. */
  lemma {:induction false} OccurrencesAfter(s: string, j: string, n: nat)
    requires n <= |s| && forall i | 0 <= i < n :: !(Token(j) <= s[i..])
    ensures Occurrences(s, j) == Occurrences(s[n..], j)
  {
    if n == 0 {
      assert s[0..] == s;
    } else {
      assert s[0..] == s;
      forall i | 0 <= i < n - 1 ensures !(Token(j) <= s[1..][i..]) { assert s[1..][i..] == s[i + 1..]; }
      OccurrencesAfter(s[1..], j, n - 1);
      assert s[1..][n - 1..] == s[n..];
    }
  }

  lemma OccurrencesAfterPlain(u: string, s: string, j: string)
    requires PlainKey(j) && '$' !in u
    ensures Occurrences(u + s, j) == Occurrences(s, j)
  {
    forall i | 0 <= i < |u| ensures !(Token(j) <= (u + s)[i..]) { NoTokenInside(u + s, j, i); }
    OccurrencesAfter(u + s, j, |u|);
    assert (u + s)[|u|..] == s;
  }

  lemma OccurrencesAfterOther(s: string, j: string, k: string)
    requires PlainKey(j) && PlainKey(k) && j != k && Token(k) <= s
    ensures Occurrences(s, j) == Occurrences(s[|Token(k)|..], j)
  {
    TokenShape(k);
    forall i | 0 <= i < |Token(k)| ensures !(Token(j) <= s[i..]) {
      if i == 0 {
        assert s[0..] == s;
        if Token(j) <= s { TokenUnique(s, j, k); }
      } else {
        NoTokenInside(s, j, i);
      }
    }
    OccurrencesAfter(s, j, |Token(k)|);
  }

  /** One more character in front hides no token. */
  lemma OccurrencesCons(c: char, s: string, j: string)
    requires PlainKey(j)
    ensures Occurrences([c] + s, j) >= Occurrences(s, j)
    ensures !(Token(j) <= [c] + s) ==> Occurrences([c] + s, j) == Occurrences(s, j)
  {
    var cs := [c] + s;
    assert cs[1..] == s;
    if Token(j) <= cs {
      TokenShape(j);
      var n := |Token(j)| - 1;
      assert s[..n] == Token(j)[1..];
      assert s == s[..n] + s[n..];
      OccurrencesAfterPlain(s[..n], s[n..], j);
      assert cs[|Token(j)|..] == s[n..];
    }
  }

  /** Replacing `k` destroys no token of `j`. */
  lemma {:induction false} ReplaceKeepsOthers(s: string, j: string, k: string, v: string)
    requires PlainKey(j) && PlainKey(k) && j != k && '$' !in v
    ensures Occurrences(ReplaceAll(s, Token(k), v), j) >= Occurrences(s, j)
    decreases |s|
  {
    var t := Token(k);
    if s == [] {
    } else if t <= s {
      ReplaceKeepsOthers(s[|t|..], j, k, v);
      OccurrencesAfterPlain(v, ReplaceAll(s[|t|..], t, v), j);
      OccurrencesAfterOther(s, j, k);
    } else if Token(j) <= s {
      ReplaceKeepsOthers(s[|Token(j)|..], j, k, v);
      TokenFirst(s, j, k, v);
    } else {
      ReplaceKeepsOthers(s[1..], j, k, v);
      OccurrencesCons(s[0], ReplaceAll(s[1..], t, v), j);
    }
  }

  /** Before the gap of a hazard there is no token of either variable. */
  lemma NothingBeforeGap(s: string, keys: set<string>, n: nat, j: string, k: string, i: nat)
    requires PlainKeys(keys) && HazardOf(s, keys, n, j, k) && i < n
    ensures !(Token(k) <= s[i..]) && !(Token(j) <= s[i..])
  {
    var t := Token(k);
    TokenShape(j);
    TokenShape(k);
    assert s[n] == s[n..][0] == '$';
    if i == 0 {
      assert s[0..] == s;
      assert s[n] != Token(j)[n];
      assert n < |t| ==> s[n] != t[n];
      assert |t| <= n ==> s[|t| - 1] == s[..n][|t| - 1] == Token(j)[|t| - 1];
    } else {
      assert s[i] == s[..n][i] == Token(j)[i];
      NoTokenInside(s, k, i);
      NoTokenInside(s, j, i);
    }
  }

  lemma OccurrencesOfToken(j: string, r: string)
    ensures Occurrences(Token(j) + r, j) == 1 + Occurrences(r, j)
  {
    var s := Token(j) + r;
    assert Token(j) <= s && s[|Token(j)|..] == r;
  }

  /** Filling the gap of a hazard completes the token before it. */
  lemma FilledText(s: string, keys: set<string>, n: nat, j: string, k: string)
    requires PlainKeys(keys) && HazardOf(s, keys, n, j, k)
    ensures ReplaceAll(s, Token(k), Token(j)[n..])
            == Token(j) + ReplaceAll(s[n..][|Token(k)|..], Token(k), Token(j)[n..])
  {
    var t, v := Token(k), Token(j)[n..];
    forall i | 0 <= i < n ensures !(t <= s[i..]) { NothingBeforeGap(s, keys, n, j, k, i); }
    ReplaceBefore(s, k, v, n);
    var r := ReplaceAll(s[n..][|t|..], t, v);
    assert ReplaceAll(s[n..], t, v) == v + r;
    assert Token(j) == Token(j)[..n] + v;
    assert Token(j)[..n] + (v + r) == Token(j) + r;
  }

  lemma HazardCount(s: string, keys: set<string>, n: nat, j: string, k: string)
    requires PlainKeys(keys) && HazardOf(s, keys, n, j, k)
    ensures Occurrences(s, j) == Occurrences(s[n..][|Token(k)|..], j)
  {
    forall i | 0 <= i < n ensures !(Token(j) <= s[i..]) { NothingBeforeGap(s, keys, n, j, k, i); }
    OccurrencesAfter(s, j, n);
    OccurrencesAfterOther(s[n..], j, k);
  }

  /** A hazard whose gap the value of `k` fills exactly: a new token of `j` appears. */
  lemma FilledHazard(s: string, keys: set<string>, n: nat, j: string, k: string)
    requires PlainKeys(keys) && HazardOf(s, keys, n, j, k)
    ensures Occurrences(ReplaceAll(s, Token(k), Token(j)[n..]), j) > Occurrences(s, j)
  {
    var v, tail := Token(j)[n..], s[n..][|Token(k)|..];
    TokenShape(j);
    assert '$' !in v;
    FilledText(s, keys, n, j, k);
    HazardCount(s, keys, n, j, k);
    OccurrencesOfToken(j, ReplaceAll(tail, Token(k), v));
    ReplaceKeepsOthers(tail, j, k, v);
  }

  /** A `$` further on lies past a token in front. */
  lemma DollarPast(s: string, k: string, i: nat)
    requires PlainKey(k) && Token(k) <= s && 0 < i < |s| && s[i] == '$'
    ensures |Token(k)| <= i && s[|Token(k)|..][i - |Token(k)|..] == s[i..]
  {
    TokenShape(k);
    assert forall x :: 0 <= x < |Token(k)| ==> s[x] == Token(k)[x];
  }

  /** Replacing a token of `k` in front changes nothing about tokens of `j`. */
  lemma OtherFirst(s: string, j: string, k: string, v: string)
    requires PlainKey(j) && PlainKey(k) && j != k && Token(k) <= s && '$' !in v
    ensures Occurrences(s, j) == Occurrences(s[|Token(k)|..], j)
    ensures Occurrences(ReplaceAll(s, Token(k), v), j) == Occurrences(ReplaceAll(s[|Token(k)|..], Token(k), v), j)
  {
    OccurrencesAfterPlain(v, ReplaceAll(s[|Token(k)|..], Token(k), v), j);
    OccurrencesAfterOther(s, j, k);
  }

  lemma NeitherFirst(s: string, j: string, k: string, v: string)
    requires PlainKey(j) && s != [] && !(Token(k) <= s) && !(Token(j) <= s)
    ensures Occurrences(s, j) == Occurrences(s[1..], j)
    ensures Occurrences(ReplaceAll(s, Token(k), v), j) >= Occurrences(ReplaceAll(s[1..], Token(k), v), j)
  {
    OccurrencesCons(s[0], ReplaceAll(s[1..], Token(k), v), j);
  }

  lemma {:induction false} HazardMakesTokens(s: string, keys: set<string>, i: nat, n: nat, j: string, k: string)
    requires PlainKeys(keys) && i <= |s| && HazardOf(s[i..], keys, n, j, k)
    ensures Occurrences(ReplaceAll(s, Token(k), Token(j)[n..]), j) > Occurrences(s, j)
    decreases |s|
  {
    var v := Token(j)[n..];
    TokenShape(j);
    assert '$' !in v;
    assert s[i] == s[i..][..n][0] == '$';
    if i == 0 {
      assert s[0..] == s;
      FilledHazard(s, keys, n, j, k);
    } else if Token(k) <= s {
      DollarPast(s, k, i);
      HazardMakesTokens(s[|Token(k)|..], keys, i - |Token(k)|, n, j, k);
      OtherFirst(s, j, k, v);
    } else if Token(j) <= s {
      DollarPast(s, j, i);
      HazardMakesTokens(s[|Token(j)|..], keys, i - |Token(j)|, n, j, k);
      TokenFirst(s, j, k, v);
    } else {
      assert s[1..][i - 1..] == s[i..];
      HazardMakesTokens(s[1..], keys, i - 1, n, j, k);
      NeitherFirst(s, j, k, v);
    }
  }

  /** A whole token of `j` in front counts once, before and after replacing `k`. */
  lemma TokenFirst(s: string, j: string, k: string, v: string)
    requires PlainKey(j) && PlainKey(k) && j != k && Token(j) <= s
    ensures Occurrences(s, j) == 1 + Occurrences(s[|Token(j)|..], j)
    ensures Occurrences(ReplaceAll(s, Token(k), v), j) == 1 + Occurrences(ReplaceAll(s[|Token(j)|..], Token(k), v), j)
  {
    ReplaceAfterToken(s, j, k, v);
    OccurrencesOfToken(j, ReplaceAll(s[|Token(j)|..], Token(k), v));
  }

  /** A value of one character that stands in no token of `k` makes no new token of `k`. */
  lemma {:induction false} NeutralMakesNoTokens(s: string, j: string, k: string, e: char)
    requires PlainKey(j) && PlainKey(k) && j != k && e !in Token(k)
    ensures Occurrences(ReplaceAll(s, Token(j), [e]), k) <= Occurrences(s, k)
    decreases |s|
  {
    var t := Token(j);
    if s == [] {
    } else if t <= s {
      NeutralMakesNoTokens(s[|t|..], j, k, e);
      TokenShape(k);
      OccurrencesAfterPlain([e], ReplaceAll(s[|t|..], t, [e]), k);
      OccurrencesAfterOther(s, k, j);
    } else if Token(k) <= s {
      var n := |Token(k)|;
      NeutralMakesNoTokens(s[n..], j, k, e);
      ReplaceAfterToken(s, k, j, [e]);
      var r := ReplaceAll(s[n..], t, [e]);
      assert Token(k) <= Token(k) + r && (Token(k) + r)[n..] == r;
    } else {
      NeutralMakesNoTokens(s[1..], j, k, e);
      NeutralBreaksToken(s, j, k, e);
      OccurrencesCons(s[0], ReplaceAll(s[1..], t, [e]), k);
    }
  }

  lemma NeutralBreaksToken(s: string, j: string, k: string, e: char)
    requires PlainKey(j) && PlainKey(k) && !(Token(k) <= s) && e !in Token(k)
    ensures !(Token(k) <= ReplaceAll(s, Token(j), [e]))
  {
    var r := ReplaceAll(s, Token(j), [e]);
    var n := if |Token(k)| < |s| then |Token(k)| else |s|;
    var m := FirstToken(s, j, n);
    ReplaceBefore(s, j, [e], m);
    if m < n {
      assert r[m] == e && Token(k)[m] != r[m];
    } else if n == |s| {
      assert s[m..] == [] && r == s;
    } else {
      assert r[..n] == s[..n];
    }
  }

  // ---- unresolved tokens --------------------------------------------------------------------

  /** `strings.Contains(s, "${")`. */
  predicate Unresolved(s: string) {
    exists i | 0 <= i <= |s| :: "${" <= s[i..]
  }

  /** Some `${` of the template opens no known token. */
  predicate ForeignToken(s: string, keys: set<string>) {
    exists i | 0 <= i <= |s| :: "${" <= s[i..] && !HasToken(s[i..], keys)
  }

  lemma OpeningAt(s: string, i: nat)
    requires i <= |s|
    ensures "${" <= s[i..] <==> i + 1 < |s| && s[i] == '$' && s[i + 1] == '{'
  {
    if i + 1 < |s| { assert s[i..][0] == s[i] && s[i..][1] == s[i + 1]; }
    assert "${"[0] == '$' && "${"[1] == '{';
  }

  lemma OpensSomewhere(s: string)
    ensures Unresolved(s) <==> exists i :: 0 <= i < |s| - 1 && s[i] == '$' && s[i + 1] == '{'
  {
    if Unresolved(s) {
      var i :| 0 <= i <= |s| && "${" <= s[i..];
      OpeningAt(s, i);
    }
    if i :| 0 <= i < |s| - 1 && s[i] == '$' && s[i + 1] == '{' { OpeningAt(s, i); }
  }

  lemma UnresolvedAfterPlain(u: string, s: string)
    requires '$' !in u
    ensures Unresolved(u + s) <==> Unresolved(s)
  {
    var us, n := u + s, |u|;
    OpensSomewhere(us);
    OpensSomewhere(s);
    if i :| 0 <= i < |us| - 1 && us[i] == '$' && us[i + 1] == '{' {
      assert i >= n && s[i - n] == '$' && s[i - n + 1] == '{';
    }
    if i :| 0 <= i < |s| - 1 && s[i] == '$' && s[i + 1] == '{' { assert us[i + n] == '$' && us[i + n + 1] == '{'; }
  }

  lemma UnresolvedCons(c: char, s: string)
    ensures Unresolved([c] + s) <==> (c == '$' && s != [] && s[0] == '{') || Unresolved(s)
  {
    var cs := [c] + s;
    OpensSomewhere(cs);
    OpensSomewhere(s);
    if i :| 0 < i < |cs| - 1 && cs[i] == '$' && cs[i + 1] == '{' { assert s[i - 1] == '$' && s[i] == '{'; }
    if c == '$' && s != [] && s[0] == '{' { assert cs[0] == '$' && cs[1] == '{'; }
    if i :| 0 <= i < |s| - 1 && s[i] == '$' && s[i + 1] == '{' { assert cs[i + 1] == '$' && cs[i + 2] == '{'; }
  }

  lemma ForeignAfter(s: string, keys: set<string>, n: nat)
    requires n <= |s| && forall i | 0 <= i < n :: !("${" <= s[i..]) || HasToken(s[i..], keys)
    ensures ForeignToken(s, keys) <==> ForeignToken(s[n..], keys)
  {
    if ForeignToken(s, keys) {
      var i :| 0 <= i <= |s| && "${" <= s[i..] && !HasToken(s[i..], keys);
      assert s[n..][i - n..] == s[i..];
    }
    if ForeignToken(s[n..], keys) {
      var i :| 0 <= i <= |s[n..]| && "${" <= s[n..][i..] && !HasToken(s[n..][i..], keys);
      assert s[n..][i..] == s[n + i..];
    }
  }

  /** Rendering a clear template leaves a `${` behind exactly when the template has one that opens no
      known token: the error of `RenderComponent` does not depend on the values. */
  lemma {:induction false} UnresolvedIffForeign(s: string, keys: set<string>, vars: Vars, j: string, k: string)
    requires PlainKeys(keys) && keys <= vars.Keys && DollarFree(vars) && Clear(s, keys)
    requires j in keys && k in keys && j != k
    ensures Unresolved(Simultaneous(s, keys, vars)) <==> ForeignToken(s, keys)
    decreases |s|
  {
    if s == [] {
    } else if HasToken(s, keys) {
      var a := TokenAt(s, keys);
      var n := |Token(a)|;
      TokenShape(a);
      SuffixClear(s, keys, n);
      UnresolvedIffForeign(s[n..], keys, vars, j, k);
      UnresolvedAfterPlain(vars[a], Simultaneous(s[n..], keys, vars));
      forall i | 0 <= i < n ensures !("${" <= s[i..]) || HasToken(s[i..], keys) {
        if i == 0 { assert s[0..] == s; } else { assert s[i] == Token(a)[i]; }
      }
      ForeignAfter(s, keys, n);
    } else {
      SuffixClear(s, keys, 1);
      UnresolvedIffForeign(s[1..], keys, vars, j, k);
      var r := Simultaneous(s[1..], keys, vars);
      UnresolvedCons(s[0], r);
      if s[0] == '$' { LoneDollarKeepsNext(s, keys, vars, j, k); }
      if "${" <= s {
        assert s[0..] == s;
      } else {
        assert s[0..] == s;
        ForeignAfter(s, keys, 1);
      }
    }
  }

  /** A `$` that opens no token is not followed by one, so the character after it survives. */
  lemma LoneDollarKeepsNext(s: string, keys: set<string>, vars: Vars, j: string, k: string)
    requires keys <= vars.Keys && Clear(s, keys) && s != [] && s[0] == '$'
    requires j in keys && k in keys && j != k
    ensures var r := Simultaneous(s[1..], keys, vars);
            (r != [] && r[0] == '{') <==> "${" <= s
  {
    if HasToken(s[1..], keys) {
      var a := TokenAt(s[1..], keys);
      var b := if a == j then k else j;
      assert s[..1] == Token(b)[..1];
      assert s[0..] == s;
      assert HazardOf(s[0..], keys, 1, b, a);
    } else if |s| > 1 {
      assert s[1..][0] == s[1];
    }
  }
}
