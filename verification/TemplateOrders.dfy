/** When the arbitrary iteration order of the variables is immaterial: exactly on the clear templates, for
    any set of variables; and the templates an author can see to be clear. */
module TemplateOrders {
  import opened Templates

  // ---- lists of variables -------------------------------------------------------------------

  lemma {:induction false} SequentialAppend(s: string, first: seq<string>, then_: seq<string>, vars: Vars)
    requires forall k | k in first + then_ :: k in vars
    ensures (forall k | k in first :: k in vars) && (forall k | k in then_ :: k in vars)
    ensures Sequential(s, first + then_, vars) == Sequential(Sequential(s, first, vars), then_, vars)
    decreases |first|
  {
    assert forall k | k in first || k in then_ :: k in first + then_;
    if first == [] {
      assert first + then_ == then_;
    } else {
      assert (first + then_)[1..] == first[1..] + then_;
      SequentialAppend(ReplaceAll(s, Token(first[0]), vars[first[0]]), first[1..], then_, vars);
    }
  }

  lemma SequentialTwo(s: string, a: string, b: string, vars: Vars)
    requires a in vars && b in vars
    ensures Sequential(s, [a, b], vars) == ReplaceAll(ReplaceAll(s, Token(a), vars[a]), Token(b), vars[b])
  {
    var r := ReplaceAll(s, Token(a), vars[a]);
    assert [a, b][1..] == [b] && [b][1..] == [];
    assert Sequential(r, [b], vars) == Sequential(ReplaceAll(r, Token(b), vars[b]), [], vars);
  }

  lemma {:induction false} SomeOrder(keys: set<string>) returns (order: seq<string>)
    ensures Enumerates(order, keys)
    decreases keys
  {
    if keys == {} {
      order := [];
    } else {
      var k :| k in keys;
      var rest := SomeOrder(keys - {k});
      order := [k] + rest;
      EnumeratesCons(k, rest, keys);
    }
  }

  lemma EnumeratesCons(k: string, rest: seq<string>, keys: set<string>)
    requires k in keys && Enumerates(rest, keys - {k})
    ensures Enumerates([k] + rest, keys)
  {
    var order := [k] + rest;
    forall i, j | 0 <= i < j < |order| ensures order[i] != order[j] {
      assert order[j] == rest[j - 1] && rest[j - 1] in rest;
    }
  }

  lemma EnumeratesTwoMore(rest: seq<string>, keys: set<string>, a: string, b: string)
    requires a in keys && b in keys && a != b && Enumerates(rest, keys - {a, b})
    ensures Enumerates(rest + [a, b], keys)
  {
    var order := rest + [a, b];
    assert order[|rest|] == a && order[|rest| + 1] == b;
    assert forall k | k in rest :: k in order;
    forall i, j | 0 <= i < j < |order| ensures order[i] != order[j] {
      if i < |rest| { assert order[i] == rest[i] && rest[i] in rest; }
    }
  }

  // ---- a hazard survives blanks -------------------------------------------------------------

  /** No token of a third variable starts inside a hazard. */
  lemma NoThirdToken(s: string, keys: set<string>, n: nat, a: string, b: string, c: string, i: nat)
    requires PlainKeys(keys) && HazardOf(s, keys, n, a, b) && PlainKey(c) && c != a && c != b
    requires i < n + |Token(b)|
    ensures n + |Token(b)| <= |s| && !(Token(c) <= s[i..])
  {
    TokenShape(a);
    TokenShape(b);
    TokenShape(c);
    var t := Token(c);
    assert s[n] == s[n..][0] == '$';
    if i == n {
      if t <= s[i..] { TokenUnique(s[n..], b, c); }
    } else if i > n {
      assert s[i] == s[n..][i - n] == Token(b)[i - n];
      NoTokenInside(s, c, i);
    } else if i > 0 {
      assert s[i] == s[..n][i] == Token(a)[i];
      NoTokenInside(s, c, i);
    } else {
      assert s[0..] == s;
      assert n < |t| ==> s[n] != t[n];
      assert |t| <= n ==> s[|t| - 1] == s[..n][|t| - 1] == Token(a)[|t| - 1];
    }
  }

  /** Replacing a third variable leaves a hazard in front as it is. */
  lemma HazardInFront(s: string, keys: set<string>, n: nat, a: string, b: string, c: string, v: string)
    requires PlainKeys(keys) && HazardOf(s, keys, n, a, b) && PlainKey(c) && c != a && c != b
    ensures HazardOf(ReplaceAll(s, Token(c), v), keys, n, a, b)
  {
    var m := n + |Token(b)|;
    forall i | 0 <= i < m ensures m <= |s| && !(Token(c) <= s[i..]) { NoThirdToken(s, keys, n, a, b, c, i); }
    NoThirdToken(s, keys, n, a, b, c, 0);
    ReplaceBefore(s, c, v, m);
    var r := ReplaceAll(s, Token(c), v);
    assert r[..m] == s[..m];
    assert r[..n] == r[..m][..n] == s[..m][..n] == s[..n];
    assert r[n..][..|Token(b)|] == r[..m][n..] == s[..m][n..] == s[n..][..|Token(b)|] == Token(b);
  }

  /** Replacing a third variable keeps a hazard, wherever it stands. */
  lemma {:induction false} HazardSurvives(s: string, keys: set<string>, i: nat, n: nat, a: string, b: string, c: string)
    returns (at: nat)
    requires PlainKeys(keys) && i <= |s| && HazardOf(s[i..], keys, n, a, b) && PlainKey(c) && c != a && c != b
    ensures at <= |ReplaceAll(s, Token(c), " ")| && HazardOf(ReplaceAll(s, Token(c), " ")[at..], keys, n, a, b)
    decreases |s|
  {
    var t, r := Token(c), ReplaceAll(s, Token(c), " ");
    assert s[i] == s[i..][..n][0] == Token(a)[..n][0] == '$';
    if i == 0 {
      assert s[0..] == s && r[0..] == r;
      HazardInFront(s, keys, n, a, b, c, " ");
      at := 0;
    } else if t <= s {
      DollarPast(s, c, i);
      var sub := HazardSurvives(s[|t|..], keys, i - |t|, n, a, b, c);
      assert r[1..] == ReplaceAll(s[|t|..], t, " ");
      at := sub + 1;
      assert r[at..] == r[1..][sub..];
    } else {
      assert s[1..][i - 1..] == s[i..];
      var sub := HazardSurvives(s[1..], keys, i - 1, n, a, b, c);
      assert r[1..] == ReplaceAll(s[1..], t, " ");
      at := sub + 1;
      assert r[at..] == r[1..][sub..];
    }
  }

  lemma {:induction false} HazardSurvivesAll(s: string, keys: set<string>, i: nat, n: nat, a: string, b: string,
                                             others: seq<string>, vars: Vars) returns (at: nat)
    requires PlainKeys(keys) && i <= |s| && HazardOf(s[i..], keys, n, a, b)
    requires forall c | c in others :: c in keys && c in vars && vars[c] == " " && c != a && c != b
    ensures var r := Sequential(s, others, vars); at <= |r| && HazardOf(r[at..], keys, n, a, b)
    decreases |others|
  {
    if others == [] {
      at := i;
    } else {
      var at1 := HazardSurvives(s, keys, i, n, a, b, others[0]);
      at := HazardSurvivesAll(ReplaceAll(s, Token(others[0]), " "), keys, at1, n, a, b, others[1..], vars);
    }
  }

  // ---- the exact condition ------------------------------------------------------------------

  /** A hazard, filled, makes the two orders of its variables leave different numbers of `$`. */
  lemma HazardOrdersDiffer(s: string, keys: set<string>, i: nat, n: nat, a: string, b: string, vars: Vars)
    requires PlainKeys(keys) && i <= |s| && HazardOf(s[i..], keys, n, a, b)
    requires a in vars && |vars[a]| == 1 && vars[a][0] !in Token(b) && b in vars && vars[b] == Token(a)[n..]
    ensures Sequential(s, [a, b], vars) != Sequential(s, [b, a], vars)
  {
    TokenShape(a);
    TokenShape(b);
    assert vars[a] == [vars[a][0]];
    var va, vb := vars[a], vars[b];
    assert '$' !in vb;
    var sa, sb := ReplaceAll(s, Token(a), va), ReplaceAll(s, Token(b), vb);
    SequentialTwo(s, a, b, vars);
    SequentialTwo(s, b, a, vars);
    ReplaceCountsTokens(s, a, va);
    ReplaceCountsTokens(s, b, vb);
    ReplaceCountsTokens(sa, b, vb);
    ReplaceCountsTokens(sb, a, va);
    HazardMakesTokens(s, keys, i, n, a, b);
    NeutralMakesNoTokens(s, a, b, va[0]);
  }

  /** All orders of these variables give the same text, whatever their `$`-free values. */
  ghost predicate OrderImmaterial(s: string, keys: set<string>) {
    forall vars: Vars, one, other ::
      vars.Keys == keys && DollarFree(vars) && Enumerates(one, keys) && Enumerates(other, keys)
      ==> Sequential(s, one, vars) == Sequential(s, other, vars)
  }

  /** The values that tell the orders of a hazard apart: what is missing of the unfinished token for the
      variable behind it, a blank for all others. */
  function TellingValues(keys: set<string>, n: nat, a: string, b: string): Vars
    requires n <= |Token(a)|
  {
    map k | k in keys :: if k == b then Token(a)[n..] else " "
  }

  lemma TellingValuesOk(keys: set<string>, n: nat, a: string, b: string)
    requires PlainKey(a) && 0 < n <= |Token(a)|
    ensures TellingValues(keys, n, a, b).Keys == keys && DollarFree(TellingValues(keys, n, a, b))
  {
    TokenShape(a);
    assert '$' !in Token(a)[n..];
  }

  lemma TwoOrders(keys: set<string>, a: string, b: string) returns (rest: seq<string>)
    requires a in keys && b in keys && a != b
    ensures Enumerates(rest + [a, b], keys) && Enumerates(rest + [b, a], keys)
    ensures forall c | c in rest :: c in keys && c != a && c != b
  {
    rest := SomeOrder(keys - {a, b});
    EnumeratesTwoMore(rest, keys, a, b);
    assert keys - {a, b} == keys - {b, a};
    EnumeratesTwoMore(rest, keys, b, a);
  }

  lemma HazardTells(s: string, keys: set<string>, i: nat, n: nat, a: string, b: string)
    returns (vars: Vars, one: seq<string>, other: seq<string>)
    requires PlainKeys(keys) && i <= |s| && HazardOf(s[i..], keys, n, a, b)
    ensures vars.Keys == keys && DollarFree(vars) && Enumerates(one, keys) && Enumerates(other, keys)
    ensures Sequential(s, one, vars) != Sequential(s, other, vars)
  {
    vars := TellingValues(keys, n, a, b);
    TellingValuesOk(keys, n, a, b);
    var rest := TwoOrders(keys, a, b);
    one, other := rest + [a, b], rest + [b, a];
    OthersFirst(s, keys, i, n, a, b, rest, vars);
  }

  /** With all other variables replaced first, the two orders of a hazard still differ. */
  lemma OthersFirst(s: string, keys: set<string>, i: nat, n: nat, a: string, b: string, rest: seq<string>, vars: Vars)
    requires PlainKeys(keys) && i <= |s| && HazardOf(s[i..], keys, n, a, b)
    requires a in vars && vars[a] == " " && b in vars && vars[b] == Token(a)[n..]
    requires forall c | c in rest :: c in keys && c in vars && vars[c] == " " && c != a && c != b
    ensures (forall c | c in rest + [a, b] :: c in vars) && (forall c | c in rest + [b, a] :: c in vars)
    ensures Sequential(s, rest + [a, b], vars) != Sequential(s, rest + [b, a], vars)
  {
    SequentialAppend(s, rest, [a, b], vars);
    SequentialAppend(s, rest, [b, a], vars);
    var at := HazardSurvivesAll(s, keys, i, n, a, b, rest, vars);
    BlankInNoToken(b);
    HazardOrdersDiffer(Sequential(s, rest, vars), keys, at, n, a, b, vars);
  }

  lemma BlankInNoToken(k: string)
    requires PlainKey(k)
    ensures ' ' !in Token(k)
  {
    assert forall i :: 2 <= i < |Token(k)| - 1 ==> Token(k)[i] == k[i - 2];
  }

  lemma ClearIsImmaterial(s: string, keys: set<string>)
    requires PlainKeys(keys) && Clear(s, keys)
    ensures OrderImmaterial(s, keys)
  {
    forall vars: Vars, one, other
      | vars.Keys == keys && DollarFree(vars) && Enumerates(one, keys) && Enumerates(other, keys)
      ensures Sequential(s, one, vars) == Sequential(s, other, vars)
    {
      SequentialIsSimultaneous(s, one, keys, vars);
      SequentialIsSimultaneous(s, other, keys, vars);
    }
  }

  /** For any variables, the order of the map iteration is immaterial for all `$`-free values exactly when
      the template is clear. */
  lemma OrderImmaterialIffClear(s: string, keys: set<string>)
    requires PlainKeys(keys)
    ensures OrderImmaterial(s, keys) <==> Clear(s, keys)
  {
    if Clear(s, keys) {
      ClearIsImmaterial(s, keys);
    } else {
      var i :| 0 <= i <= |s| && Hazard(s[i..], keys);
      var n: nat, a, b :| HazardOf(s[i..], keys, n, a, b);
      var vars, one, other := HazardTells(s, keys, i, n, a, b);
    }
  }

  /** An unfinished namespace token before a release token tells the orders apart with values that
      `RenderComponent` admits: a namespace that is a DNS label, and a release id that is not blank. */
  lemma ReleaseHazardDiffers(s: string, i: nat, n: nat, vars: Vars)
    requires i <= |s| && HazardOf(s[i..], {"namespace", "catalogReleaseId"}, n, "namespace", "catalogReleaseId")
    requires vars == map["namespace" := "x", "catalogReleaseId" := Token("namespace")[n..]]
    ensures DollarFree(vars) && vars["catalogReleaseId"] != "" && ' ' !in vars["catalogReleaseId"]
    ensures Sequential(s, ["namespace", "catalogReleaseId"], vars)
            != Sequential(s, ["catalogReleaseId", "namespace"], vars)
  {
    var j, k := "namespace", "catalogReleaseId";
    TokenShape(j);
    BlankInNoToken(j);
    assert 'x' !in Token(k);
    HazardOrdersDiffer(s, {j, k}, i, n, j, k, vars);
  }

  // ---- what an author can see ---------------------------------------------------------------

  datatype Piece = Literal(text: string) | Variable(key: string)

  function Written(pieces: seq<Piece>): string {
    if pieces == [] then []
    else (if pieces[0].Literal? then pieces[0].text else Token(pieces[0].key)) + Written(pieces[1..])
  }

  function Filled(pieces: seq<Piece>, vars: Vars): string
    requires forall p | p in pieces && p.Variable? :: p.key in vars
  {
    if pieces == [] then []
    else (if pieces[0].Literal? then pieces[0].text else vars[pieces[0].key]) + Filled(pieces[1..], vars)
  }

  /** Literals without `$`, and known variables. */
  predicate Ordinary(pieces: seq<Piece>, keys: set<string>) {
    forall p | p in pieces :: if p.Literal? then '$' !in p.text else p.key in keys
  }

  /** A whole token in front brings no hazard. */
  lemma ClearAfterToken(k: string, s: string, keys: set<string>)
    requires PlainKeys(keys) && k in keys && Clear(s, keys)
    ensures Clear(Token(k) + s, keys)
  {
    var t, all := Token(k), Token(k) + s;
    TokenShape(k);
    forall i | 0 <= i <= |all| ensures !Hazard(all[i..], keys) {
      if i >= |t| {
        assert all[i..] == s[i - |t|..];
      } else if i > 0 {
        assert all[i] == t[i];
        if Hazard(all[i..], keys) { HazardStartsWithDollar(all[i..], keys); }
      } else {
        assert all[0..] == all;
        forall n: nat, j, b ensures !HazardOf(all, keys, n, j, b) { TokenIsNoHazard(k, s, keys, n, j, b); }
      }
    }
  }

  lemma TokenIsNoHazard(k: string, s: string, keys: set<string>, n: nat, j: string, b: string)
    requires PlainKeys(keys) && k in keys
    ensures !HazardOf(Token(k) + s, keys, n, j, b)
  {
    var all := Token(k) + s;
    assert all[0..] == all && Token(k) <= all;
    if HazardOf(all, keys, n, j, b) {
      if k == j || k == b { NothingBeforeGap(all, keys, n, j, b, 0); } else { NoThirdToken(all, keys, n, j, b, k, 0); }
    }
  }

  lemma ForeignAfterToken(k: string, s: string, keys: set<string>)
    requires PlainKey(k) && k in keys
    ensures ForeignToken(Token(k) + s, keys) <==> ForeignToken(s, keys)
  {
    var t, all := Token(k), Token(k) + s;
    TokenShape(k);
    forall i | 0 <= i < |t| ensures !("${" <= all[i..]) || HasToken(all[i..], keys) {
      if i == 0 { assert all[0..] == all && t <= all; } else { assert all[i] == t[i] && all[i..][0] == all[i]; }
    }
    ForeignAfter(all, keys, |t|);
    assert all[|t|..] == s;
  }

  lemma ForeignAfterPlain(u: string, s: string, keys: set<string>)
    requires '$' !in u
    ensures ForeignToken(u + s, keys) <==> ForeignToken(s, keys)
  {
    var all := u + s;
    forall i | 0 <= i < |u| ensures !("${" <= all[i..]) { assert all[i..][0] == u[i]; }
    ForeignAfter(all, keys, |u|);
    assert all[|u|..] == s;
  }

  /** A template written as literals without `$` and known tokens is clear and has no foreign token. */
  lemma {:induction false} OrdinaryIsClear(pieces: seq<Piece>, keys: set<string>)
    requires PlainKeys(keys) && Ordinary(pieces, keys)
    ensures Clear(Written(pieces), keys) && !ForeignToken(Written(pieces), keys)
  {
    if pieces == [] {
      EmptyIsClear(keys);
    } else {
      var rest := Written(pieces[1..]);
      OrdinaryIsClear(pieces[1..], keys);
      if pieces[0].Literal? {
        ClearAfterPlain(pieces[0].text, rest, keys);
        ForeignAfterPlain(pieces[0].text, rest, keys);
      } else {
        ClearAfterToken(pieces[0].key, rest, keys);
        ForeignAfterToken(pieces[0].key, rest, keys);
      }
    }
  }

  lemma {:induction false} SimultaneousFills(pieces: seq<Piece>, keys: set<string>, vars: Vars)
    requires PlainKeys(keys) && keys <= vars.Keys && Ordinary(pieces, keys)
    ensures Simultaneous(Written(pieces), keys, vars) == Filled(pieces, vars)
  {
    if pieces == [] {
    } else {
      var rest := Written(pieces[1..]);
      SimultaneousFills(pieces[1..], keys, vars);
      if pieces[0].Literal? {
        SimultaneousAfterPlain(pieces[0].text, rest, keys, vars);
      } else {
        var s, t := Written(pieces), Token(pieces[0].key);
        assert t <= s && s[|t|..] == rest;
        TokenUnique(s, pieces[0].key, TokenAt(s, keys));
      }
    }
  }

  /** Rendering such a template, in any order, puts the values in place of the tokens and does nothing else. */
  lemma OrdinaryRenders(pieces: seq<Piece>, order: seq<string>, keys: set<string>, vars: Vars)
    requires PlainKeys(keys) && keys <= vars.Keys && DollarFree(vars) && Enumerates(order, keys)
    requires Ordinary(pieces, keys)
    ensures Sequential(Written(pieces), order, vars) == Filled(pieces, vars)
  {
    OrdinaryIsClear(pieces, keys);
    SequentialIsSimultaneous(Written(pieces), order, keys, vars);
    SimultaneousFills(pieces, keys, vars);
  }

  // ---- a template that depends on the order -------------------------------------------------

  /** `${${k}}` */
  function Nested(k: string): string { "${" + Token(k) + "}" }

  lemma NestedInside(k: string, j: string, v: string)
    requires PlainKey(k) && PlainKey(j) && j != k
    ensures ReplaceAll(Nested(k), Token(j), v) == Nested(k)
  {
    var s, n := Nested(k), |Nested(k)|;
    TokenShape(k);
    TokenShape(j);
    assert s[2..] == Token(k) + "}";
    forall i | 0 <= i < n ensures !(Token(j) <= s[i..]) {
      if i == 0 {
        assert s[0..] == s && s[2] == Token(k)[0] == '$';
      } else if i == 2 {
        assert !(Token(j) <= s[2..]) by { if Token(j) <= s[2..] { TokenUnique(s[2..], j, k); } }
      } else {
        assert i > 2 ==> s[i] == s[2..][i - 2];
        NoTokenInside(s, j, i);
      }
    }
    ReplaceBefore(s, j, v, n);
    assert s[..n] == s && s[n..] == [];
  }

  /** Filling in the inner token with the name of another variable completes a token of that variable. */
  lemma NestedFilled(k: string, j: string)
    requires PlainKey(k) && PlainKey(j)
    ensures ReplaceAll(Nested(k), Token(k), j) == Token(j)
  {
    var s, t, tail := Nested(k), Token(k), "}";
    TokenShape(k);
    assert s[2..] == t + tail && s[..2] == "${";
    forall i | 0 <= i < 2 ensures !(t <= s[i..]) {
      if i == 0 { assert s[0..] == s && s[2] == t[0] == '$'; } else { NoTokenInside(s, k, i); }
    }
    ReplaceBefore(s, k, j, 2);
    assert (t + tail)[|t|..] == tail;
    NoTokenInside(tail, k, 0);
    assert tail[0..] == tail && tail[1..] == [];
    assert ReplaceAll(tail, t, j) == tail;
    assert ReplaceAll(t + tail, t, j) == j + tail;
  }

  lemma NestedOrders(j: string, k: string, v: string, vars: Vars)
    requires PlainKey(k) && PlainKey(j) && j != k && vars == map[j := v, k := j]
    ensures Sequential(Nested(k), [k, j], vars) == v && Sequential(Nested(k), [j, k], vars) == Token(j)
  {
    SequentialTwo(Nested(k), k, j, vars);
    SequentialTwo(Nested(k), j, k, vars);
    NestedFilled(k, j);
    NestedInside(k, j, v);
    var t := Token(j);
    assert t[|t|..] == [];
    assert ReplaceAll(t, t, v) == v;
  }

  /** `${${catalogReleaseId}}` for namespace `ns` and release `namespace`: filling in the release first gives
      `ns`, filling in the namespace first leaves `${namespace}`. */
  lemma NestedTemplateDependsOnOrder()
    ensures var vars := map["namespace" := "ns", "catalogReleaseId" := "namespace"];
            && Sequential(Nested("catalogReleaseId"), ["catalogReleaseId", "namespace"], vars) == "ns"
            && Sequential(Nested("catalogReleaseId"), ["namespace", "catalogReleaseId"], vars) == Token("namespace")
  {
    var j, k := "namespace", "catalogReleaseId";
    NestedOrders(j, k, "ns", map[j := "ns", k := j]);
  }
}
