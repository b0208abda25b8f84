/** When resolving an already resolved document changes nothing. */
module SecondResolution {
  import opened JsonTree
  import opened ResolveParams

  /** A text that gives rise to no new reference wherever it is inserted. */
  predicate Safe(v: string) {
    v != "" && v[0] != '{' && v[|v| - 1] != '$' && !ContainsOpening(v)
  }

  /** Whatever the text refers to is safe to insert there. */
  predicate TextSafe(s: string, sc: Scope) {
    forall name :: name in TextNames(s) && name in sc ==> Safe(TextForm(sc[name]))
  }

  /** So is every text of the document outside its typed references. */
  predicate TextsSafe(j: Json, sc: Scope) {
    IsParamObject(j) ||
    match j
    case Obj(ms) => MembersTextsSafe(ms, sc)
    case Arr(items) => ItemsTextsSafe(items, sc)
    case Text(s) => TextSafe(s, sc)
    case _ => true
  }

  predicate MembersTextsSafe(ms: seq<Member>, sc: Scope) {
    ms == [] || (TextsSafe(ms[0].value, sc) && MembersTextsSafe(ms[1..], sc))
  }

  predicate ItemsTextsSafe(items: seq<Json>, sc: Scope) {
    items == [] || (TextsSafe(items[0], sc) && ItemsTextsSafe(items[1..], sc))
  }

  /** An object that is no typed reference as written and resolves to one: its
      one key is `$param`, and what stands there refers to a text. */
  predicate LateReference(j: Json, sc: Scope) {
    j.Obj? && |j.members| == 1 && j.members[0].key == "$param" && IsParamObject(j.members[0].value) &&
    var name := j.members[0].value.members[0].value.s;
    name in sc && sc[name].Text?
  }

  /** A typed reference stands for a value that resolves to itself, a late one
      for a text that in turn stands for the very reference to it. */
  predicate Settled(j: Json, sc: Scope) {
    if IsParamObject(j) then
      var name := j.members[0].value.s;
      name in sc && Resolve(sc[name], sc) == Bound(sc[name])
    else if LateReference(j, sc) then
      var v := sc[j.members[0].value.members[0].value.s];
      v.s in sc && sc[v.s] == Obj([Member("$param", v)])
    else
      match j
      case Obj(ms) => MembersSettled(ms, sc)
      case Arr(items) => ItemsSettled(items, sc)
      case _ => true
  }

  predicate MembersSettled(ms: seq<Member>, sc: Scope) {
    ms == [] || (Settled(ms[0].value, sc) && MembersSettled(ms[1..], sc))
  }

  predicate ItemsSettled(items: seq<Json>, sc: Scope) {
    items == [] || (Settled(items[0], sc) && ItemsSettled(items[1..], sc))
  }

  // ----- texts -----

  lemma {:induction false} UnclosedTextIsKept(s: string, sc: Scope)
    requires '}' !in s
    ensures TextNames(s) == [] && Interpolate(s, sc) == Bound(s)
    decreases |s|
  {
    if s != "" {
      UnclosedTextIsKept(s[1..], sc);
      assert [s[0]] + s[1..] == s;
    }
  }

  lemma TokenValueIsSafe(s: string, sc: Scope)
    requires TextSafe(s, sc) && TokenEnd(s).Some? && s[2..TokenEnd(s).value] in sc
    ensures Safe(TextForm(sc[s[2..TokenEnd(s).value]]))
    ensures TextSafe(s[TokenEnd(s).value + 1..], sc)
  {
    var e := TokenEnd(s).value;
    assert TextNames(s) == [s[2..e]] + TextNames(s[e + 1..]);
    assert s[2..e] in TextNames(s);
    assert forall name :: name in TextNames(s[e + 1..]) ==> name in TextNames(s);
  }

  /** An opening brace at the front of the output was there in the input. */
  lemma FrontBraceIsOld(s: string, sc: Scope)
    requires TextSafe(s, sc) && Interpolate(s, sc).Bound?
    ensures var t := Interpolate(s, sc).value; t != "" && t[0] == '{' ==> s != "" && s[0] == '{'
  {
    if TokenEnd(s).Some? {
      TokenValueIsSafe(s, sc);
    }
  }

  /** What opens nothing, within itself or at its end, adds no name in front. */
  lemma {:induction false} PrependUnopened(v: string, t: string)
    requires !ContainsOpening(v) && (v != "" ==> v[|v| - 1] != '$') && TextNames(t) == []
    ensures TextNames(v + t) == []
    decreases |v|
  {
    if v == "" {
      assert v + t == t;
    } else {
      var w := v[1..];
      assert forall i :: 0 <= i < |w| ==> w[i] == v[i + 1];
      PrependUnopened(w, t);
      assert (v + t)[1..] == w + t;
      assert !OpensToken(v + t);
    }
  }

  /** Interpolating with safe values leaves no closed token behind, even
      before an unterminated `${` tail. */
  lemma {:induction false} OutputIsNameless(s: string, sc: Scope)
    requires TextSafe(s, sc) && Interpolate(s, sc).Bound?
    ensures TextNames(Interpolate(s, sc).value) == []
    decreases |s|
  {
    if s != "" {
      var t := Interpolate(s, sc).value;
      match TokenEnd(s)
      case Some(e) =>
        TokenValueIsSafe(s, sc);
        OutputIsNameless(s[e + 1..], sc);
        PrependUnopened(TextForm(sc[s[2..e]]), Interpolate(s[e + 1..], sc).value);
      case None =>
        OutputIsNameless(s[1..], sc);
        var t' := Interpolate(s[1..], sc).value;
        assert t == [s[0]] + t' && t[1..] == t';
        if OpensToken(t) {
          FrontBraceIsOld(s[1..], sc);
          assert OpensToken(s);
          assert '}' !in s[1..];
          UnclosedTextIsKept(s[1..], sc);
          assert t == s;
        }
    }
  }

  // ----- documents -----

  /** Resolving twice is resolving once. */
  ghost predicate Stable(j: Json, sc: Scope) {
    Resolve(j, sc).Bound? ==> Resolve(Resolve(j, sc).value, sc) == Resolve(j, sc)
  }

  /** With safe texts, resolving a document twice is resolving it once if and only
      if the document is settled. */
  lemma {:induction false} StableIffSettled(j: Json, sc: Scope)
    requires TextsSafe(j, sc) && Resolve(j, sc).Bound?
    ensures Stable(j, sc) <==> Settled(j, sc)
    decreases j
  {
    if IsParamObject(j) {
    } else {
      match j
      case Obj(ms) =>
        if LateReference(j, sc) {
          LateReferenceResolves(ms, sc);
        } else {
          MembersStableIffSettled(ms, sc);
          OnlyLateBecomesReference(ms, sc);
        }
      case Arr(items) => ItemsStableIffSettled(items, sc);
      case Text(s) =>
        OutputIsNameless(s, sc);
        NamelessText(Interpolate(s, sc).value, sc);
      case _ =>
    }
  }

  lemma LateReferenceResolves(ms: seq<Member>, sc: Scope)
    requires LateReference(Obj(ms), sc)
    ensures Resolve(Obj(ms), sc) == Bound(Obj([Member("$param", sc[ms[0].value.members[0].value.s])]))
  {
    var v := sc[ms[0].value.members[0].value.s];
    assert Resolve(ms[0].value, sc) == Bound(v);
    assert ms[1..] == [] && [Member("$param", v)] + [] == [Member("$param", v)];
    assert ResolveMembers(ms[1..], sc) == Bound([]);
    assert ResolveMembers(ms, sc) == Bound([Member("$param", v)]);
  }

  lemma OnlyLateBecomesReference(ms: seq<Member>, sc: Scope)
    requires ResolveMembers(ms, sc).Bound? && !IsParamObject(Obj(ms)) && !LateReference(Obj(ms), sc)
    ensures !IsParamObject(Obj(ResolveMembers(ms, sc).value))
  {
    MembersKeepKeys(ms, sc);
  }

  lemma {:induction false} MembersStableIffSettled(ms: seq<Member>, sc: Scope)
    requires MembersTextsSafe(ms, sc) && ResolveMembers(ms, sc).Bound?
    ensures ResolveMembers(ResolveMembers(ms, sc).value, sc) == ResolveMembers(ms, sc) <==> MembersSettled(ms, sc)
    decreases ms
  {
    if ms != [] {
      StableIffSettled(ms[0].value, sc);
      MembersStableIffSettled(ms[1..], sc);
      var rs := ResolveMembers(ms, sc).value;
      assert rs[1..] == ResolveMembers(ms[1..], sc).value;
      MembersFixedCons(rs, sc);
    }
  }

  lemma MembersFixedCons(ms: seq<Member>, sc: Scope)
    requires ms != []
    ensures ResolveMembers(ms, sc) == Bound(ms) <==>
            Resolve(ms[0].value, sc) == Bound(ms[0].value) && ResolveMembers(ms[1..], sc) == Bound(ms[1..])
  {
    assert [Member(ms[0].key, ms[0].value)] + ms[1..] == ms;
    if ResolveMembers(ms, sc) == Bound(ms) {
      var v, rest := Resolve(ms[0].value, sc).value, ResolveMembers(ms[1..], sc).value;
      assert ms == [Member(ms[0].key, v)] + rest;
      assert ms[0] == Member(ms[0].key, v) && ms[1..] == rest;
    }
  }

  lemma {:induction false} ItemsStableIffSettled(items: seq<Json>, sc: Scope)
    requires ItemsTextsSafe(items, sc) && ResolveItems(items, sc).Bound?
    ensures ResolveItems(ResolveItems(items, sc).value, sc) == ResolveItems(items, sc) <==> ItemsSettled(items, sc)
    decreases items
  {
    if items != [] {
      StableIffSettled(items[0], sc);
      ItemsStableIffSettled(items[1..], sc);
      var rs := ResolveItems(items, sc).value;
      assert rs[1..] == ResolveItems(items[1..], sc).value;
      ItemsFixedCons(rs, sc);
    }
  }

  lemma ItemsFixedCons(items: seq<Json>, sc: Scope)
    requires items != []
    ensures ResolveItems(items, sc) == Bound(items) <==>
            Resolve(items[0], sc) == Bound(items[0]) && ResolveItems(items[1..], sc) == Bound(items[1..])
  {
    assert [items[0]] + items[1..] == items;
    if ResolveItems(items, sc) == Bound(items) {
      var v, rest := Resolve(items[0], sc).value, ResolveItems(items[1..], sc).value;
      assert items == [v] + rest;
      assert items[0] == v && items[1..] == rest;
    }
  }

  /** Resolving a resolved document returns it unchanged. */
  lemma SecondResolutionIsNoOp(j: Json, sc: Scope)
    requires TextsSafe(j, sc) && Settled(j, sc) && Resolve(j, sc).Bound?
    ensures Resolve(Resolve(j, sc).value, sc) == Resolve(j, sc)
  {
    StableIffSettled(j, sc);
  }

  lemma TokenThenTail(name: string, tail: string, sc: Scope)
    requires name in sc && '}' !in name && Interpolate(tail, sc).Bound?
    ensures Interpolate("${" + name + "}" + tail, sc) == Bound(TextForm(sc[name]) + Interpolate(tail, sc).value)
  {
    var s := "${" + name + "}" + tail;
    var e := |name| + 2;
    assert s[e] == '}' && s[2..e] == name && s[e + 1..] == tail;
    assert forall i :: 2 <= i < e ==> s[i] == name[i - 2];
    assert IndexOf(s, '}', 2) == Some(e);
  }

  lemma PlainThenTail(c: char, tail: string, sc: Scope)
    requires !OpensToken([c] + tail) && Interpolate(tail, sc).Bound?
    ensures Interpolate([c] + tail, sc) == Bound([c] + Interpolate(tail, sc).value)
  {
    assert ([c] + tail)[1..] == tail;
  }

  lemma EmptyTokenVanishes(a: string, tail: string, sc: Scope)
    requires a in sc && sc[a] == Text("") && '}' !in a && !ContainsOpening(tail)
    ensures Interpolate(['$'] + ("${" + a + "}" + tail), sc) == Bound(['$'] + tail)
  {
    NoOpeningNoChange(tail, sc);
    TokenThenTail(a, tail, sc);
    assert "" + tail == tail;
    PlainThenTail('$', "${" + a + "}" + tail, sc);
  }

  lemma LoneToken(b: string, sc: Scope)
    requires b in sc && '}' !in b
    ensures Interpolate(['$'] + ("{" + b + "}"), sc) == Bound(TextForm(sc[b]))
  {
    TokenThenTail(b, "", sc);
    assert "${" + b + "}" + "" == ['$'] + ("{" + b + "}");
    assert TextForm(sc[b]) + "" == TextForm(sc[b]);
  }

  /** One empty value is enough to make a second resolution differ: with a
      empty, `$${a}{b}` becomes `${b}`, which refers to b. */
  lemma EmptyValueMakesNewReference(a: string, b: string, sc: Scope)
    requires a in sc && sc[a] == Text("") && '}' !in a
    requires b in sc && sc[b].Text? && '}' !in b && '$' !in b
    ensures var once := Resolve(Text(['$'] + ("${" + a + "}" + ("{" + b + "}"))), sc);
            once == Bound(Text(['$'] + ("{" + b + "}"))) && Resolve(once.value, sc) == Bound(sc[b])
  {
    assert !ContainsOpening("{" + b + "}");
    EmptyTokenVanishes(a, "{" + b + "}", sc);
    LoneToken(b, sc);
  }

  /** A reference whose name is itself a reference is only seen the second time. */
  lemma LateReferenceIsResolvedSecond(a: string, b: string, sc: Scope)
    requires a in sc && sc[a] == Text(b) && b in sc
    ensures var j := Obj([Member("$param", Obj([Member("$param", Text(a))]))]);
            Resolve(j, sc) == Bound(Obj([Member("$param", Text(b))])) && Resolve(Resolve(j, sc).value, sc) == Bound(sc[b])
  {
    LateReferenceResolves([Member("$param", Obj([Member("$param", Text(a))]))], sc);
  }

  // ----- exactly which texts are safe -----

  lemma {:induction false} ClosedOpeningIsName(s: string, i: nat, j: nat)
    requires i + 2 <= j < |s| && s[i] == '$' && s[i + 1] == '{' && s[j] == '}'
    ensures TextNames(s) != []
    decreases |s|
  {
    if TokenEnd(s).None? {
      ClosedOpeningIsName(s[1..], i - 1, j - 1);
    }
  }

  lemma {:induction false} NamesAreShorter(s: string)
    ensures forall n :: n in TextNames(s) ==> |n| < |s|
    decreases |s|
  {
    if s != "" {
      match TokenEnd(s)
      case None => NamesAreShorter(s[1..]);
      case Some(e) => NamesAreShorter(s[e + 1..]);
    }
  }

  /** `$${name}{}`: whatever is wrong with the value shows here. */
  function Probe(name: string): string {
    ['$'] + ("${" + name + "}" + "{}")
  }

  lemma ProbeOutput(name: string, v: string)
    requires '}' !in name
    ensures Interpolate(Probe(name), map[name := Text(v)]) == Bound(['$'] + (v + "{}"))
  {
    var sc := map[name := Text(v)];
    NoOpeningNoChange("{}", sc);
    TokenThenTail(name, "{}", sc);
    PlainThenTail('$', "${" + name + "}" + "{}", sc);
  }

  lemma UnsafeShowsInProbe(v: string)
    requires !Safe(v)
    ensures TextNames(['$'] + (v + "{}")) != []
  {
    var t := ['$'] + (v + "{}");
    assert t[|v| + 1] == '{' && t[|v| + 2] == '}';
    assert forall i :: 0 <= i < |v| ==> t[i + 1] == v[i];
    if v == "" || v[0] == '{' {
      ClosedOpeningIsName(t, 0, |v| + 2);
    } else if v[|v| - 1] == '$' {
      ClosedOpeningIsName(t, |v|, |v| + 2);
    } else {
      var i :| 0 <= i < |v| - 1 && v[i] == '$' && v[i + 1] == '{';
      ClosedOpeningIsName(t, i + 1, |v| + 2);
    }
  }

  /** A text value is safe if and only if, under whatever name a text can refer
      to it, resolving any text twice is resolving it once. */
  lemma SafeIff(v: string)
    ensures Safe(v) <==> forall name, s :: '}' !in name ==> Stable(Text(s), map[name := Text(v)])
  {
    if Safe(v) {
      forall name, s | '}' !in name ensures Stable(Text(s), map[name := Text(v)]) {
        SafeIsStable(name, v, s);
      }
    } else {
      var name := UnsafeIsUnstable(v);
      assert '}' !in name && !Stable(Text(Probe(name)), map[name := Text(v)]);
    }
  }

  lemma SafeIsStable(name: string, v: string, s: string)
    requires Safe(v) && '}' !in name
    ensures Stable(Text(s), map[name := Text(v)])
  {
    var sc := map[name := Text(v)];
    if Resolve(Text(s), sc).Bound? { SecondResolutionIsNoOp(Text(s), sc); }
  }

  lemma UnsafeIsUnstable(v: string) returns (name: string)
    requires !Safe(v)
    ensures '}' !in name && !Stable(Text(Probe(name)), map[name := Text(v)])
  {
    name := seq(|v| + 3, i => 'a');
    var sc := map[name := Text(v)];
    var out := ['$'] + (v + "{}");
    ProbeOutput(name, v);
    UnsafeShowsInProbe(v);
    NamesAreShorter(out);
    assert TextNames(out)[0] in TextNames(out);
    ResolveOutcome(Text(out), sc);
  }
}
