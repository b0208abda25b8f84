/** Substituting a frame's parameter values into a JSON document
    (src/core/ResolveParams.cpp). */
module ResolveParams {
  import opened JsonTree

  /** One frame's parameter values, by key. */
  type Scope = map<string, Json>

  /** Resolution either binds every name or stops at one that is unbound. */
  datatype Resolved<+T> = Bound(value: T) | Unbound(name: string) {
    predicate IsFailure() { Unbound? }

    function PropagateFailure<U>(): Resolved<U>
      requires Unbound?
    {
      Unbound(name)
    }

    function Extract(): T
      requires Bound?
    {
      value
    }
  }

  // ----- text with ${name} in it -----

  predicate OpensToken(s: string) {
    |s| >= 2 && s[0] == '$' && s[1] == '{'
  }

  /** Where the token that s starts with closes, if s starts with a closed token. */
  function TokenEnd(s: string): (r: Option<nat>)
    ensures r.Some? ==> OpensToken(s) && 2 <= r.value < |s| && s[r.value] == '}'
  {
    if OpensToken(s) then IndexOf(s, '}', 2) else None
  }

  function Interpolate(s: string, sc: Scope): Resolved<string>
    decreases |s|
  {
    if s == "" then Bound("")
    else
      match TokenEnd(s)
      case None =>
        var rest :- Interpolate(s[1..], sc);
        Bound([s[0]] + rest)
      case Some(e) =>
        if s[2..e] !in sc then Unbound(s[2..e])
        else
          var rest :- Interpolate(s[e + 1..], sc);
          Bound(TextForm(sc[s[2..e]]) + rest)
  }

  /** `strstr(s, "${")` finds something. */
  predicate ContainsOpening(s: string) {
    exists i :: 0 <= i < |s| - 1 && s[i] == '$' && s[i + 1] == '{'
  }

  lemma {:induction false} NoOpeningNoChange(s: string, sc: Scope)
    requires !ContainsOpening(s)
    ensures Interpolate(s, sc) == Bound(s)
    decreases |s|
  {
    if s != "" {
      forall i | 0 <= i < |s[1..]| - 1 ensures !(s[1..][i] == '$' && s[1..][i + 1] == '{') {
        assert s[i + 1] == s[1..][i] && s[i + 2] == s[1..][i + 1];
      }
      NoOpeningNoChange(s[1..], sc);
      assert [s[0]] + s[1..] == s;
    }
  }

  /** The scan over the text, appending to `out` as it goes. */
  method InterpolateText(s: string, sc: Scope) returns (r: Resolved<string>)
    ensures r == Interpolate(s, sc)
  {
    var out, p := "", 0;
    ScanStart(s, sc);
    while p < |s|
      invariant 0 <= p <= |s|
      invariant Interpolate(s, sc) == Scanned(out, s, sc, p)
    {
      if p + 1 < |s| && s[p] == '$' && s[p + 1] == '{' {
        var end := IndexOf(s, '}', p + 2);
        if end.None? {
          ScanPlain(s, sc, out, p);
          out := out + [s[p]];
          p := p + 1;
          continue;
        }
        var name := s[p + 2..end.value];
        ScanToken(s, sc, out, p);
        if name !in sc {
          return Unbound(name);
        }
        out := out + TextForm(sc[name]);
        p := end.value + 1;
      } else {
        ScanPlain(s, sc, out, p);
        out := out + [s[p]];
        p := p + 1;
      }
    }
    ScanEnd(s, sc, out);
    return Bound(out);
  }

  /** What the scan yields from position p with `out` already appended. */
  ghost function Scanned(out: string, s: string, sc: Scope, p: nat): Resolved<string>
    requires p <= |s|
  {
    Prefixed(out, Interpolate(s[p..], sc))
  }

  lemma ScanStart(s: string, sc: Scope)
    ensures Scanned("", s, sc, 0) == Interpolate(s, sc)
  {
    assert s[0..] == s;
    PrefixedNone(Interpolate(s, sc));
  }

  lemma ScanEnd(s: string, sc: Scope, out: string)
    ensures Scanned(out, s, sc, |s|) == Bound(out)
  {
    assert s[|s|..] == "";
    assert out + "" == out;
  }

  /** Outside a closed token one character is copied. */
  lemma ScanPlain(s: string, sc: Scope, out: string, p: nat)
    requires p < |s|
    requires p + 1 < |s| && s[p] == '$' && s[p + 1] == '{' ==> IndexOf(s, '}', p + 2).None?
    ensures Scanned(out, s, sc, p) == Scanned(out + [s[p]], s, sc, p + 1)
  {
    assert s[p..][1..] == s[p + 1..];
    if p + 1 < |s| { IndexOfSuffix(s, '}', p, 2); }
    assert TokenEnd(s[p..]).None?;
    PrefixedTwice(out, [s[p]], Interpolate(s[p + 1..], sc));
  }

  /** A closed token is replaced by its value's text. */
  lemma ScanToken(s: string, sc: Scope, out: string, p: nat)
    requires p + 1 < |s| && s[p] == '$' && s[p + 1] == '{' && IndexOf(s, '}', p + 2).Some?
    ensures var e := IndexOf(s, '}', p + 2).value;
            var name := s[p + 2..e];
            Scanned(out, s, sc, p) ==
            if name !in sc then Unbound(name) else Scanned(out + TextForm(sc[name]), s, sc, e + 1)
  {
    var e := IndexOf(s, '}', p + 2).value;
    var name := s[p + 2..e];
    IndexOfSuffix(s, '}', p, 2);
    SliceOfDrop(s, p, 2, e - p);
    assert s[p..][e - p + 1..] == s[e + 1..];
    if name in sc { PrefixedTwice(out, TextForm(sc[name]), Interpolate(s[e + 1..], sc)); }
  }

  function Prefixed<T>(done: seq<T>, rest: Resolved<seq<T>>): Resolved<seq<T>> {
    match rest
    case Bound(r) => Bound(done + r)
    case Unbound(name) => Unbound(name)
  }

  lemma PrefixedNone<T>(rest: Resolved<seq<T>>)
    ensures Prefixed([], rest) == rest
  {
    if rest.Bound? { assert [] + rest.value == rest.value; }
  }

  lemma PrefixedTwice<T>(a: seq<T>, b: seq<T>, rest: Resolved<seq<T>>)
    ensures Prefixed(a, Prefixed(b, rest)) == Prefixed(a + b, rest)
  {
    if rest.Bound? { assert a + (b + rest.value) == (a + b) + rest.value; }
  }

  lemma SliceOfDrop(s: string, p: nat, lo: nat, hi: nat)
    requires lo <= hi && p + hi <= |s|
    ensures s[p..][lo..hi] == s[p + lo..p + hi]
  {
    forall k | 0 <= k < hi - lo ensures s[p..][lo..hi][k] == s[p + lo..p + hi][k] {
      assert s[p..][lo..hi][k] == s[p..][lo + k] == s[p + (lo + k)];
    }
  }

  lemma {:induction false} IndexOfSuffix(s: string, c: char, p: nat, from: nat)
    requires p + from <= |s|
    ensures IndexOf(s[p..], c, from) ==
            match IndexOf(s, c, p + from) case None => None case Some(e) => Some(e - p)
    decreases |s| - from
  {
    if p + from < |s| && s[p + from] != c { IndexOfSuffix(s, c, p, from + 1); }
  }

  // ----- documents -----

  /** Exactly {"$param": "name"}. */
  predicate IsParamObject(j: Json) {
    j.Obj? && |j.members| == 1 && j.members[0].key == "$param" && j.members[0].value.Text?
  }

  function Resolve(j: Json, sc: Scope): Resolved<Json> {
    if IsParamObject(j) then
      var name := j.members[0].value.s;
      if name in sc then Bound(sc[name]) else Unbound(name)
    else
      match j
      case Obj(ms) =>
        var rs :- ResolveMembers(ms, sc);
        Bound(Obj(rs))
      case Arr(items) =>
        var rs :- ResolveItems(items, sc);
        Bound(Arr(rs))
      case Text(s) =>
        var t :- Interpolate(s, sc);
        Bound(Text(t))
      case _ => Bound(j)
  }

  function ResolveMembers(ms: seq<Member>, sc: Scope): Resolved<seq<Member>> {
    if ms == [] then Bound([])
    else
      var v :- Resolve(ms[0].value, sc);
      var rest :- ResolveMembers(ms[1..], sc);
      Bound([Member(ms[0].key, v)] + rest)
  }

  function ResolveItems(items: seq<Json>, sc: Scope): Resolved<seq<Json>> {
    if items == [] then Bound([])
    else
      var v :- Resolve(items[0], sc);
      var rest :- ResolveItems(items[1..], sc);
      Bound([v] + rest)
  }

  /** The recursive walk, filling the destination member by member. */
  method ResolveInto(src: Json, sc: Scope) returns (dst: Resolved<Json>)
    ensures dst == Resolve(src, sc)
    decreases src
  {
    if IsParamObject(src) {
      var name := src.members[0].value.s;
      if name !in sc {
        return Unbound(name);
      }
      return Bound(sc[name]);
    }
    if src.Obj? {
      var d: seq<Member> := [];
      assert src.members[0..] == src.members;
      PrefixedNone(ResolveMembers(src.members, sc));
      for i := 0 to |src.members|
        invariant ResolveMembers(src.members, sc) == Prefixed(d, ResolveMembers(src.members[i..], sc))
      {
        var kv := src.members[i];
        var v := ResolveInto(kv.value, sc);
        assert src.members[i..][1..] == src.members[i + 1..];
        if v.Unbound? {
          return Unbound(v.name);
        }
        PrefixedTwice(d, [Member(kv.key, v.value)], ResolveMembers(src.members[i + 1..], sc));
        d := d + [Member(kv.key, v.value)];
      }
      assert d + [] == d;
      return Bound(Obj(d));
    }
    if src.Arr? {
      var d: seq<Json> := [];
      assert src.items[0..] == src.items;
      PrefixedNone(ResolveItems(src.items, sc));
      for i := 0 to |src.items|
        invariant ResolveItems(src.items, sc) == Prefixed(d, ResolveItems(src.items[i..], sc))
      {
        var v := ResolveInto(src.items[i], sc);
        assert src.items[i..][1..] == src.items[i + 1..];
        if v.Unbound? {
          return Unbound(v.name);
        }
        PrefixedTwice(d, [v.value], ResolveItems(src.items[i + 1..], sc));
        d := d + [v.value];
      }
      assert d + [] == d;
      return Bound(Arr(d));
    }
    if src.Text? {
      if ContainsOpening(src.s) {
        var out := InterpolateText(src.s, sc);
        if out.Unbound? {
          return Unbound(out.name);
        }
        return Bound(Text(out.value));
      }
      NoOpeningNoChange(src.s, sc);
      return Bound(src);
    }
    return Bound(src);
  }

  // ----- the names a document refers to -----

  function TextNames(s: string): seq<string>
    decreases |s|
  {
    if s == "" then []
    else
      match TokenEnd(s)
      case None => TextNames(s[1..])
      case Some(e) => [s[2..e]] + TextNames(s[e + 1..])
  }

  /** Typed references and the tokens inside texts, in the order of the walk. */
  function Names(j: Json): seq<string> {
    if IsParamObject(j) then [j.members[0].value.s]
    else
      match j
      case Obj(ms) => MemberNames(ms)
      case Arr(items) => ItemNames(items)
      case Text(s) => TextNames(s)
      case _ => []
  }

  function MemberNames(ms: seq<Member>): seq<string> {
    if ms == [] then [] else Names(ms[0].value) + MemberNames(ms[1..])
  }

  function ItemNames(items: seq<Json>): seq<string> {
    if items == [] then [] else Names(items[0]) + ItemNames(items[1..])
  }

  /** The first of the names that the scope does not bind. */
  function FirstUnbound(names: seq<string>, sc: Scope): (r: Option<string>)
    ensures r.None? <==> forall n :: n in names ==> n in sc
  {
    if names == [] then None
    else if names[0] !in sc then Some(names[0])
    else FirstUnbound(names[1..], sc)
  }

  lemma FirstUnboundCons(name: string, rest: seq<string>, sc: Scope)
    ensures FirstUnbound([name] + rest, sc) == if name !in sc then Some(name) else FirstUnbound(rest, sc)
  {
    assert ([name] + rest)[1..] == rest;
  }

  lemma {:induction false} FirstUnboundAppend(a: seq<string>, b: seq<string>, sc: Scope)
    ensures FirstUnbound(a + b, sc) ==
            if FirstUnbound(a, sc).Some? then FirstUnbound(a, sc) else FirstUnbound(b, sc)
  {
    if a == [] {
      assert a + b == b;
    } else {
      FirstUnboundAppend(a[1..], b, sc);
      assert (a + b)[1..] == a[1..] + b;
    }
  }

  /** Nothing unbound, or this outcome names it. */
  ghost predicate NamesFirstUnbound<T>(r: Resolved<T>, names: seq<string>, sc: Scope) {
    match r
    case Bound(_) => FirstUnbound(names, sc) == None
    case Unbound(n) => FirstUnbound(names, sc) == Some(n)
  }

  lemma {:induction false} InterpolateOutcome(s: string, sc: Scope)
    ensures NamesFirstUnbound(Interpolate(s, sc), TextNames(s), sc)
    decreases |s|
  {
    if s != "" {
      match TokenEnd(s)
      case None => InterpolateOutcome(s[1..], sc);
      case Some(e) =>
        InterpolateOutcome(s[e + 1..], sc);
        FirstUnboundCons(s[2..e], TextNames(s[e + 1..]), sc);
    }
  }

  /** Resolution succeeds exactly when every name the document refers to is
      bound, and otherwise reports the first unbound one. */
  lemma {:induction false} ResolveOutcome(j: Json, sc: Scope)
    ensures Resolve(j, sc).Bound? <==> forall n :: n in Names(j) ==> n in sc
    ensures NamesFirstUnbound(Resolve(j, sc), Names(j), sc)
    decreases j
  {
    if !IsParamObject(j) {
      match j
      case Obj(ms) => ResolveMembersOutcome(ms, sc);
      case Arr(items) => ResolveItemsOutcome(items, sc);
      case Text(s) => InterpolateOutcome(s, sc);
      case _ =>
    }
  }

  lemma {:induction false} ResolveMembersOutcome(ms: seq<Member>, sc: Scope)
    ensures NamesFirstUnbound(ResolveMembers(ms, sc), MemberNames(ms), sc)
    decreases ms
  {
    if ms != [] {
      ResolveOutcome(ms[0].value, sc);
      ResolveMembersOutcome(ms[1..], sc);
      FirstUnboundAppend(Names(ms[0].value), MemberNames(ms[1..]), sc);
    }
  }

  lemma {:induction false} ResolveItemsOutcome(items: seq<Json>, sc: Scope)
    ensures NamesFirstUnbound(ResolveItems(items, sc), ItemNames(items), sc)
    decreases items
  {
    if items != [] {
      ResolveOutcome(items[0], sc);
      ResolveItemsOutcome(items[1..], sc);
      FirstUnboundAppend(Names(items[0]), ItemNames(items[1..]), sc);
    }
  }

  // ----- only the names matter -----

  ghost predicate AgreeOn(names: seq<string>, sc: Scope, sc': Scope) {
    forall n :: n in names ==> (n in sc <==> n in sc') && (n in sc ==> sc[n] == sc'[n])
  }

  lemma AgreeOnCons(name: string, rest: seq<string>, sc: Scope, sc': Scope)
    requires AgreeOn([name] + rest, sc, sc')
    ensures AgreeOn([name], sc, sc') && AgreeOn(rest, sc, sc')
  {
    assert forall n :: n in rest ==> n in [name] + rest;
    assert name in [name] + rest;
  }

  lemma {:induction false} InterpolateDependsOnNames(s: string, sc: Scope, sc': Scope)
    requires AgreeOn(TextNames(s), sc, sc')
    ensures Interpolate(s, sc) == Interpolate(s, sc')
    decreases |s|
  {
    if s != "" {
      match TokenEnd(s)
      case None => InterpolateDependsOnNames(s[1..], sc, sc');
      case Some(e) =>
        AgreeOnCons(s[2..e], TextNames(s[e + 1..]), sc, sc');
        InterpolateDependsOnNames(s[e + 1..], sc, sc');
    }
  }

  /** The result depends only on the scope restricted to the names referred to. */
  lemma {:induction false} ResolveDependsOnNames(j: Json, sc: Scope, sc': Scope)
    requires AgreeOn(Names(j), sc, sc')
    ensures Resolve(j, sc) == Resolve(j, sc')
    decreases j
  {
    if IsParamObject(j) {
      assert j.members[0].value.s in Names(j);
    } else {
      match j
      case Obj(ms) => ResolveMembersDependOnNames(ms, sc, sc');
      case Arr(items) => ResolveItemsDependOnNames(items, sc, sc');
      case Text(s) => InterpolateDependsOnNames(s, sc, sc');
      case _ =>
    }
  }

  lemma {:induction false} ResolveMembersDependOnNames(ms: seq<Member>, sc: Scope, sc': Scope)
    requires AgreeOn(MemberNames(ms), sc, sc')
    ensures ResolveMembers(ms, sc) == ResolveMembers(ms, sc')
    decreases ms
  {
    if ms != [] {
      ResolveDependsOnNames(ms[0].value, sc, sc');
      ResolveMembersDependOnNames(ms[1..], sc, sc');
    }
  }

  lemma {:induction false} ResolveItemsDependOnNames(items: seq<Json>, sc: Scope, sc': Scope)
    requires AgreeOn(ItemNames(items), sc, sc')
    ensures ResolveItems(items, sc) == ResolveItems(items, sc')
    decreases items
  {
    if items != [] {
      ResolveDependsOnNames(items[0], sc, sc');
      ResolveItemsDependOnNames(items[1..], sc, sc');
    }
  }

  // ----- documents without names -----

  lemma {:induction false} NamelessText(s: string, sc: Scope)
    requires TextNames(s) == []
    ensures Interpolate(s, sc) == Bound(s)
    decreases |s|
  {
    if s != "" {
      NamelessText(s[1..], sc);
      assert [s[0]] + s[1..] == s;
    }
  }

  /** A document that refers to no name resolves to itself in every scope. */
  lemma {:induction false} NamelessIsFixed(j: Json, sc: Scope)
    requires Names(j) == []
    ensures Resolve(j, sc) == Bound(j)
    decreases j
  {
    match j
    case Obj(ms) => NamelessMembersFixed(ms, sc);
    case Arr(items) => NamelessItemsFixed(items, sc);
    case Text(s) => NamelessText(s, sc);
    case _ =>
  }

  lemma {:induction false} NamelessMembersFixed(ms: seq<Member>, sc: Scope)
    requires MemberNames(ms) == []
    ensures ResolveMembers(ms, sc) == Bound(ms)
    decreases ms
  {
    if ms != [] {
      NamelessIsFixed(ms[0].value, sc);
      NamelessMembersFixed(ms[1..], sc);
      assert [Member(ms[0].key, ms[0].value)] + ms[1..] == ms;
    }
  }

  lemma {:induction false} NamelessItemsFixed(items: seq<Json>, sc: Scope)
    requires ItemNames(items) == []
    ensures ResolveItems(items, sc) == Bound(items)
    decreases items
  {
    if items != [] {
      NamelessIsFixed(items[0], sc);
      NamelessItemsFixed(items[1..], sc);
      assert [items[0]] + items[1..] == items;
    }
  }

  /** To name nothing is to resolve to itself in every scope. */
  lemma NamelessIffFixed(j: Json)
    ensures Names(j) == [] <==> forall sc :: Resolve(j, sc) == Bound(j)
  {
    if Names(j) == [] {
      forall sc ensures Resolve(j, sc) == Bound(j) { NamelessIsFixed(j, sc); }
    } else {
      var sc: Scope := map[];
      ResolveOutcome(j, sc);
      assert Names(j)[0] in Names(j) && Names(j)[0] !in sc;
      assert Resolve(j, sc).Unbound?;
    }
  }

  // ----- keys survive -----

  lemma {:induction false} MembersKeepKeys(ms: seq<Member>, sc: Scope)
    requires ResolveMembers(ms, sc).Bound?
    ensures var rs := ResolveMembers(ms, sc).value;
            |rs| == |ms| &&
            forall i :: 0 <= i < |ms| ==> rs[i].key == ms[i].key && Resolve(ms[i].value, sc) == Bound(rs[i].value)
    decreases ms
  {
    if ms != [] {
      MembersKeepKeys(ms[1..], sc);
      var rs := ResolveMembers(ms, sc).value;
      forall i | 0 <= i < |ms|
        ensures rs[i].key == ms[i].key && Resolve(ms[i].value, sc) == Bound(rs[i].value)
      {
        if i > 0 {
          assert ms[i] == ms[1..][i - 1] && rs[i] == rs[1..][i - 1];
        }
      }
    }
  }

  lemma {:induction false} MembersResolveAt(ms: seq<Member>, sc: Scope, key: string)
    requires ResolveMembers(ms, sc).Bound?
    ensures var rs := ResolveMembers(ms, sc).value;
            match Find(ms, key)
            case None => Find(rs, key) == None
            case Some(v) => Resolve(v, sc).Bound? && Find(rs, key) == Some(Resolve(v, sc).value)
    decreases ms
  {
    if ms != [] {
      MembersResolveAt(ms[1..], sc, key);
      var rs := ResolveMembers(ms, sc).value;
      assert rs[1..] == ResolveMembers(ms[1..], sc).value;
    }
  }

  /** Resolving an object that is no typed reference keeps its keys and
      resolves each member in its place. */
  lemma ResolveAt(j: Json, sc: Scope, key: string)
    requires j.Obj? && !IsParamObject(j) && Resolve(j, sc).Bound?
    ensures Resolve(j, sc).value.Obj?
    ensures Has(Resolve(j, sc).value, key) <==> Has(j, key)
    ensures Resolve(Get(j, key), sc) == Bound(Get(Resolve(j, sc).value, key))
  {
    MembersResolveAt(j.members, sc, key);
  }
}
