/** How a value reads inside a text (src/core/ResolveParams.cpp). */
module NumberText {
  import opened JsonTree
  import opened ResolveParams

  // ----- decimal numbers -----

  predicate IsDigit(c: char) {
    '0' <= c <= '9'
  }

  predicate AllDigits(s: string) {
    forall i :: 0 <= i < |s| ==> IsDigit(s[i])
  }

  /** The number that a row of digits denotes, most significant digit first. */
  function Value(s: string): int
    requires AllDigits(s)
  {
    if s == "" then 0 else 10 * Value(s[..|s| - 1]) + (s[|s| - 1] as int - '0' as int)
  }

  /** A decimal numeral without superfluous zeros in front. */
  predicate Numeral(s: string) {
    s != "" && AllDigits(s) && (|s| > 1 ==> s[0] != '0')
  }

  predicate Denotes(s: string, n: nat) {
    Numeral(s) && Value(s) == n
  }

  lemma ValuePush(s: string, c: char)
    requires AllDigits(s) && IsDigit(c)
    ensures AllDigits(s + [c]) && Value(s + [c]) == 10 * Value(s) + (c as int - '0' as int)
  {
    assert (s + [c])[..|s|] == s;
  }

  lemma {:induction false} ValueIsNatural(s: string)
    requires AllDigits(s)
    ensures Value(s) >= 0
  {
    if s != "" { ValueIsNatural(s[..|s| - 1]); }
  }

  lemma {:induction false} NumeralIsPositive(s: string)
    requires Numeral(s) && s[0] != '0'
    ensures Value(s) > 0
  {
    if |s| > 1 { NumeralIsPositive(s[..|s| - 1]); }
  }

  /** Two numerals of the same number are the same. */
  lemma {:induction false} NumeralIsUnique(s: string, t: string)
    requires Numeral(s) && Numeral(t) && Value(s) == Value(t)
    ensures s == t
    decreases |s|
  {
    var front, front' := s[..|s| - 1], t[..|t| - 1];
    assert s == front + [s[|s| - 1]] && t == front' + [t[|t| - 1]];
    ValueIsNatural(front);
    ValueIsNatural(front');
    assert Value(front) == Value(front') && s[|s| - 1] == t[|t| - 1];
    if front != "" { NumeralIsPositive(front); }
    if front' != "" { NumeralIsPositive(front'); }
    if front != "" { NumeralIsUnique(front, front'); }
  }

  lemma ZeroFront(s: string)
    requires Numeral(s) && s[0] == '0'
    ensures Value(s) == 0
  {
    assert s[..|s| - 1] == "";
  }

  lemma {:induction false} DigitsDenote(n: nat)
    ensures Denotes(Digits(n), n)
  {
    var c := ('0' as int + n % 10) as char;
    if n < 10 {
      assert Digits(n) == [c];
      ValuePush("", c);
      assert "" + [c] == [c];
    } else {
      DigitsDenote(n / 10);
      assert Digits(n) == Digits(n / 10) + [c];
      ValuePush(Digits(n / 10), c);
      if Digits(n / 10)[0] == '0' { ZeroFront(Digits(n / 10)); }
    }
  }

  /** The decimal text of an integer: a minus sign exactly for negative ones. */
  predicate IsDecimalOf(s: string, n: int) {
    if n < 0 then s != "" && s[0] == '-' && Denotes(s[1..], -n) else Denotes(s, n)
  }

  /** An integer reads as its decimal text, and as nothing else. */
  lemma IntReads(n: int, s: string)
    ensures TextForm(Int(n)) == s <==> IsDecimalOf(s, n)
  {
    if n < 0 {
      DigitsDenote(-n);
      assert ("-" + Digits(-n))[1..] == Digits(-n);
      if IsDecimalOf(s, n) {
        NumeralIsUnique(s[1..], Digits(-n));
        assert s == "-" + s[1..];
      }
    } else {
      DigitsDenote(n);
      if IsDecimalOf(s, n) { NumeralIsUnique(s, Digits(n)); }
    }
  }

  // ----- inside a text -----

  /** What a value other than an array or an object reads as. */
  ghost predicate ReadsAs(v: Json, s: string) {
    match v
    case Text(t) => s == t
    case Bool(b) => s == if b then "true" else "false"
    case Null => s == "null"
    case Int(n) => IsDecimalOf(s, n)
    case _ => s == SERIALIZED(v)
  }

  lemma TextFormReads(v: Json, s: string)
    ensures TextForm(v) == s <==> ReadsAs(v, s)
  {
    if v.Int? { IntReads(v.n, s); }
  }

  /** A closed token gives way to what its value reads as, whatever follows. */
  lemma TokenReads(name: string, tail: string, sc: Scope, s: string)
    requires name in sc && '}' !in name && ReadsAs(sc[name], s)
    ensures Interpolate("${" + name + "}" + tail, sc) ==
            match Interpolate(tail, sc) case Unbound(x) => Unbound(x) case Bound(rest) => Bound(s + rest)
  {
    var t, e := "${" + name + "}" + tail, |name| + 2;
    TextFormReads(sc[name], s);
    TokenSpans(name, tail);
    assert t[2..e] == name && t[e + 1..] == tail;
  }

  /** An unbound name in a closed token is the outcome. */
  lemma UnboundTokenFails(name: string, tail: string, sc: Scope)
    requires name !in sc && '}' !in name
    ensures Interpolate("${" + name + "}" + tail, sc) == Unbound(name)
  {
    TokenSpans(name, tail);
    assert ("${" + name + "}" + tail)[2..|name| + 2] == name;
  }

  lemma TokenSpans(name: string, tail: string)
    requires '}' !in name
    ensures TokenEnd("${" + name + "}" + tail) == Some(|name| + 2)
  {
    var t, e := "${" + name + "}" + tail, |name| + 2;
    assert t[0] == '$' && t[1] == '{' && t[e] == '}';
    assert forall i :: 2 <= i < e ==> t[i] == name[i - 2];
  }

  lemma PlainCharStays(c: char, t: string, sc: Scope)
    requires c != '$'
    ensures Interpolate([c] + t, sc) == Prefixed([c], Interpolate(t, sc))
  {
    assert ([c] + t)[1..] == t;
  }

  lemma {:induction false} PlainFrontPrefixes(front: string, tail: string, sc: Scope)
    requires '$' !in front
    ensures Interpolate(front + tail, sc) == Prefixed(front, Interpolate(tail, sc))
  {
    if front == "" {
      assert front + tail == tail;
      PrefixedNone(Interpolate(tail, sc));
    } else {
      PlainFrontPrefixes(front[1..], tail, sc);
      PlainCharStays(front[0], front[1..] + tail, sc);
      PrefixedTwice([front[0]], front[1..], Interpolate(tail, sc));
      assert [front[0]] + (front[1..] + tail) == front + tail && [front[0]] + front[1..] == front;
    }
  }

  /** Text in front of a token, free of `$`, stays. */
  lemma PlainFrontStays(front: string, tail: string, sc: Scope)
    requires '$' !in front
    ensures Interpolate(front + tail, sc) ==
            match Interpolate(tail, sc) case Unbound(x) => Unbound(x) case Bound(rest) => Bound(front + rest)
  {
    PlainFrontPrefixes(front, tail, sc);
  }

  /** `front${name}` with a bound name, whole: the front and what the value reads as. */
  lemma PlaceholderReads(front: string, name: string, sc: Scope, s: string)
    requires '$' !in front && '}' !in name && name in sc && ReadsAs(sc[name], s)
    ensures Resolve(Text(front + ("${" + name + "}")), sc) == Bound(Text(front + s))
  {
    TokenReads(name, "", sc, s);
    assert "${" + name + "}" + "" == "${" + name + "}" && s + "" == s;
    PlainFrontStays(front, "${" + name + "}", sc);
  }

  /** Volume 12 reads as 12. */
  lemma TwelveReads(name: string)
    requires '}' !in name
    ensures Resolve(Text("vol " + ("${" + name + "}")), map[name := Int(12)]) == Bound(Text("vol 12"))
  {
    ValuePush("", '1');
    ValuePush("1", '2');
    assert "" + ['1'] == "1" && "1" + ['2'] == "12";
    PlaceholderReads("vol ", name, map[name := Int(12)], "12");
    assert "vol " + "12" == "vol 12";
  }

  // ----- references -----

  /** Exactly the objects with the one key `$param` and a text there are typed
      references, and a reference stands for its value, whole. */
  lemma ReferenceIff(j: Json)
    ensures IsParamObject(j) <==> exists name :: j == Reference(name)
  {
    if IsParamObject(j) {
      assert j.members == [Member("$param", Text(j.members[0].value.s))];
      assert j == Reference(j.members[0].value.s);
    }
  }

  function Reference(name: string): Json {
    Obj([Member("$param", Text(name))])
  }

  lemma ReferenceResolves(name: string, sc: Scope)
    ensures Resolve(Reference(name), sc) == if name in sc then Bound(sc[name]) else Unbound(name)
  {
  }
}
