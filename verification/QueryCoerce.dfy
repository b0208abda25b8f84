/** Turning query texts into typed arguments
    (src/adapters/triggers/QueryCoerce.cpp). */
module QueryCoerce {
  import opened JsonTree
  import opened ResolveParams
  import opened Sequences
  import opened Evaluator

  // ----- single values -----

  /** What strtol makes of a text, if it consumes all of it. */
  const STRTOL: string -> Option<int32>

  function ParseIntStrict(s: string): Option<int32> {
    if s == "" then None else STRTOL(s)
  }

  function ParseBool(s: string): Option<bool> {
    var l := Lower(s);
    if l == "1" || l == "true" || l == "yes" || l == "on" then Some(true)
    else if l == "0" || l == "false" || l == "no" || l == "off" then Some(false)
    else None
  }

  // ----- comma-separated texts -----

  /** The parts between commas; one more than there are commas. */
  function SplitFrom(s: string, from: nat): seq<string>
    requires from <= |s|
    decreases |s| - from
  {
    match IndexOf(s, ',', from)
    case None => [s[from..|s|]]
    case Some(j) => [s[from..j]] + SplitFrom(s, j + 1)
  }

  function Split(s: string): seq<string> {
    SplitFrom(s, 0)
  }

  function Join(parts: seq<string>): string {
    if parts == [] then ""
    else if |parts| == 1 then parts[0]
    else parts[0] + "," + Join(parts[1..])
  }

  lemma JoinCons(p: string, rest: seq<string>)
    requires rest != []
    ensures Join([p] + rest) == p + "," + Join(rest)
  {
    assert ([p] + rest)[1..] == rest;
  }

  lemma CutAt(s: string, from: nat, j: nat)
    requires from <= j < |s| && s[j] == ','
    ensures s[from..j] + "," + s[j + 1..] == s[from..]
  {
  }

  predicate CommaFree(parts: seq<string>) {
    forall p :: p in parts ==> ',' !in p
  }

  lemma CommaFreeCons(p: string, rest: seq<string>)
    requires ',' !in p && CommaFree(rest)
    ensures CommaFree([p] + rest)
  {
  }

  lemma CommaFreeUncons(parts: seq<string>)
    requires parts != [] && CommaFree(parts)
    ensures ',' !in parts[0] && CommaFree(parts[1..]) && [parts[0]] + parts[1..] == parts
  {
  }

  lemma {:induction false} JoinSplitFrom(s: string, from: nat)
    requires from <= |s|
    ensures SplitFrom(s, from) != [] && Join(SplitFrom(s, from)) == s[from..] && CommaFree(SplitFrom(s, from))
    decreases |s| - from
  {
    match IndexOf(s, ',', from)
    case None =>
    case Some(j) =>
      JoinSplitFrom(s, j + 1);
      CutAt(s, from, j);
      JoinCons(s[from..j], SplitFrom(s, j + 1));
      CommaFreeCons(s[from..j], SplitFrom(s, j + 1));
  }

  /** Joining the parts of a text gives it back, and no part has a comma. */
  lemma JoinSplit(s: string)
    ensures Join(Split(s)) == s && CommaFree(Split(s))
  {
    JoinSplitFrom(s, 0);
    assert s[0..] == s;
  }

  /** A comma-free stretch up to the next comma, or to the end, is one part. */
  lemma SplitStep(s: string, from: nat, p: string)
    requires from + |p| <= |s| && s[from..from + |p|] == p && ',' !in p
    requires from + |p| < |s| ==> s[from + |p|] == ','
    ensures SplitFrom(s, from) == if from + |p| == |s| then [p] else [p] + SplitFrom(s, from + |p| + 1)
  {
    assert forall i :: from <= i < from + |p| ==> s[i] == s[from..from + |p|][i - from];
  }

  lemma SuffixAt(s: string, from: nat, n: nat)
    requires from + n < |s|
    ensures s[from..][..n] == s[from..from + n]
    ensures s[from..][n] == s[from + n]
    ensures s[from..][n + 1..] == s[from + n + 1..]
  {
  }

  lemma HeadAndTail(p: string, tail: string)
    ensures var j := p + "," + tail; j[..|p|] == p && j[|p|] == ',' && j[|p| + 1..] == tail
  {
  }

  lemma SuffixHead(s: string, from: nat, p: string, tail: string)
    requires from <= |s| && s[from..] == p + "," + tail
    ensures var k := from + |p|; k < |s| && s[from..k] == p && s[k] == ',' && s[k + 1..] == tail
  {
    assert |s[from..]| == |p| + 1 + |tail|;
    HeadAndTail(p, tail);
    SuffixAt(s, from, |p|);
  }

  /** The first part is split off and the rest is what the other parts join to. */
  lemma SplitFirst(s: string, from: nat, parts: seq<string>)
    requires |parts| > 1 && ',' !in parts[0]
    requires from <= |s| && s[from..] == Join(parts)
    ensures var k := from + |parts[0]|;
            k < |s| && s[k + 1..] == Join(parts[1..]) && SplitFrom(s, from) == [parts[0]] + SplitFrom(s, k + 1)
  {
    SuffixHead(s, from, parts[0], Join(parts[1..]));
    SplitStep(s, from, parts[0]);
  }

  lemma SplitOnly(s: string, from: nat)
    requires from <= |s| && ',' !in s[from..]
    ensures SplitFrom(s, from) == [s[from..]]
  {
    SplitStep(s, from, s[from..]);
  }

  lemma {:induction false} SplitJoinFrom(s: string, from: nat, parts: seq<string>)
    requires parts != [] && CommaFree(parts)
    requires from <= |s| && s[from..] == Join(parts)
    ensures SplitFrom(s, from) == parts
    decreases |parts|
  {
    CommaFreeUncons(parts);
    if |parts| == 1 {
      SplitOnly(s, from);
    } else {
      SplitFirst(s, from, parts);
      SplitJoinFrom(s, from + |parts[0]| + 1, parts[1..]);
    }
  }

  /** Splitting what was joined from comma-free parts gives the parts back. */
  lemma SplitJoin(parts: seq<string>)
    requires parts != [] && CommaFree(parts)
    ensures Split(Join(parts)) == parts
  {
    assert Join(parts)[0..] == Join(parts);
    SplitJoinFrom(Join(parts), 0, parts);
  }

  /** Where the part that starts here ends: at the next comma or at the end. */
  function PartEnd(s: string, from: nat): (j: nat)
    requires from <= |s|
    ensures from <= j <= |s|
  {
    match IndexOf(s, ',', from) case None => |s| case Some(j) => j
  }

  lemma SplitFromEnd(s: string, from: nat)
    requires from <= |s|
    ensures var j := PartEnd(s, from);
            SplitFrom(s, from) == [s[from..j]] + if j < |s| then SplitFrom(s, j + 1) else []
  {
  }

  /** The scan for a comma-separated value. */
  method EnumContains(csv: string, v: string) returns (found: bool)
    ensures found <==> v in Split(csv)
  {
    var i := 0;
    while i <= |csv|
      invariant 0 <= i <= |csv| + 1
      invariant v in Split(csv) <==> i <= |csv| && v in SplitFrom(csv, i)
      decreases |csv| + 1 - i
    {
      var j := PartEnd(csv, i);
      if csv[i..j] == v {
        return true;
      }
      i := j + 1;
    }
    return false;
  }

  function Texts(parts: seq<string>): seq<Json> {
    if parts == [] then [] else [Text(parts[0])] + Texts(parts[1..])
  }

  /** The loop that fills a string list. */
  method SplitList(v: string) returns (parts: seq<Json>)
    ensures parts == Texts(Split(v))
  {
    parts := [];
    var i := 0;
    assert [] + Texts(Split(v)) == Texts(Split(v));
    while i <= |v|
      invariant 0 <= i <= |v| + 1
      invariant Texts(Split(v)) == if i <= |v| then parts + Texts(SplitFrom(v, i)) else parts
      decreases |v| + 1 - i
    {
      var j := PartEnd(v, i);
      TextsOfSplit(v, i, parts);
      parts := parts + [Text(v[i..j])];
      i := j + 1;
    }
  }

  lemma TextsCons(p: string, rest: seq<string>)
    ensures Texts([p] + rest) == [Text(p)] + Texts(rest)
  {
    assert ([p] + rest)[1..] == rest;
  }

  lemma AppendFirst<T>(front: seq<T>, x: T, rest: seq<T>)
    ensures front + ([x] + rest) == (front + [x]) + rest
  {
  }

  lemma TextsOfSplit(v: string, i: nat, parts: seq<Json>)
    requires i <= |v|
    ensures var j := PartEnd(v, i);
            parts + Texts(SplitFrom(v, i)) ==
            (parts + [Text(v[i..j])]) + if j < |v| then Texts(SplitFrom(v, j + 1)) else []
  {
    var j := PartEnd(v, i);
    var rest := if j < |v| then SplitFrom(v, j + 1) else [];
    SplitFromEnd(v, i);
    TextsCons(v[i..j], rest);
    AppendFirst(parts, Text(v[i..j]), Texts(rest));
  }

  // ----- coercion by type -----

  datatype Problem = NotInt | NotBool | NotInEnum

  /** What a query text becomes: a value, nothing at all, or a problem. */
  datatype Coercion = Coerced(value: Json) | Ignored | Invalid(problem: Problem)

  function Coerce(p: ParamDef, v: string): Coercion {
    match p.fieldType
    case StringField => Coerced(Text(v))
    case MacField => Coerced(Text(v))
    case StringListField => Coerced(Arr(Texts(Split(v))))
    case IntField =>
      (match ParseIntStrict(v) case None => Invalid(NotInt) case Some(n) => Coerced(Int(n)))
    case BoolField =>
      (match ParseBool(v) case None => Invalid(NotBool) case Some(b) => Coerced(Bool(b)))
    case EnumField => if v in Split(p.enumValues) then Coerced(Text(v)) else Invalid(NotInEnum)
    case PredicateField => Ignored
  }

  method CoerceOne(p: ParamDef, v: string) returns (c: Coercion)
    ensures c == Coerce(p, v)
  {
    match p.fieldType {
      case StringField => return Coerced(Text(v));
      case MacField => return Coerced(Text(v));
      case StringListField =>
        var parts := SplitList(v);
        return Coerced(Arr(parts));
      case IntField =>
        var n := ParseIntStrict(v);
        return if n.None? then Invalid(NotInt) else Coerced(Int(n.value));
      case BoolField =>
        var b := ParseBool(v);
        return if b.None? then Invalid(NotBool) else Coerced(Bool(b.value));
      case EnumField =>
        var found := EnumContains(p.enumValues, v);
        return if found then Coerced(Text(v)) else Invalid(NotInEnum);
      case PredicateField => return Ignored;
    }
  }

  // ----- what each field type accepts -----

  /** Equal but for the case of ASCII letters: w in lower case, v as it likes. */
  predicate SameInLowerCase(v: string, w: string) {
    |v| == |w| && forall i :: 0 <= i < |v| ==>
      if 'A' <= v[i] <= 'Z' then w[i] as int == v[i] as int + 32 else w[i] == v[i]
  }

  lemma LowerIff(v: string, w: string)
    ensures Lower(v) == w <==> SameInLowerCase(v, w)
  {
  }

  predicate OneOf(v: string, words: seq<string>) {
    exists i :: 0 <= i < |words| && SameInLowerCase(v, words[i])
  }

  /** Up to letter case, four words read as true, four others as false, and
      nothing else is a bool. */
  lemma BoolReads(p: ParamDef, v: string)
    requires p.fieldType == BoolField
    ensures Coerce(p, v) == Coerced(Bool(true)) <==> OneOf(v, ["1", "true", "yes", "on"])
    ensures Coerce(p, v) == Coerced(Bool(false)) <==> OneOf(v, ["0", "false", "no", "off"])
    ensures Coerce(p, v) in {Coerced(Bool(true)), Coerced(Bool(false)), Invalid(NotBool)}
  {
    OneOfFour(v, "1", "true", "yes", "on");
    OneOfFour(v, "0", "false", "no", "off");
  }

  lemma OneOfFour(v: string, a: string, b: string, c: string, d: string)
    ensures OneOf(v, [a, b, c, d]) <==> Lower(v) in {a, b, c, d}
  {
    var words := [a, b, c, d];
    LowerIff(v, a);
    LowerIff(v, b);
    LowerIff(v, c);
    LowerIff(v, d);
    assert words[0] == a && words[1] == b && words[2] == c && words[3] == d;
  }

  /** Strings and MACs are taken as they are, predicates are not taken at all. */
  lemma TextReads(p: ParamDef, v: string)
    ensures p.fieldType == StringField || p.fieldType == MacField ==> Coerce(p, v) == Coerced(Text(v))
    ensures p.fieldType == PredicateField ==> Coerce(p, v) == Ignored
  {
  }

  /** An int is what strtol makes of the whole of a text that is not empty. */
  lemma IntReads(p: ParamDef, v: string)
    requires p.fieldType == IntField
    ensures v != "" && STRTOL(v).Some? ==> Coerce(p, v) == Coerced(Int(STRTOL(v).value))
    ensures v == "" || STRTOL(v) == None ==> Coerce(p, v) == Invalid(NotInt)
  {
  }

  /** A list is the comma-free parts that the text joins, each as a text, in order. */
  lemma ListReads(p: ParamDef, parts: seq<string>, items: seq<Json>)
    requires p.fieldType == StringListField && parts != [] && CommaFree(parts)
    requires |items| == |parts| && forall i :: 0 <= i < |parts| ==> items[i] == Text(parts[i])
    ensures Coerce(p, Join(parts)) == Coerced(Arr(items))
  {
    SplitJoin(parts);
    TextsAre(parts, items);
  }

  lemma {:induction false} TextsAre(parts: seq<string>, items: seq<Json>)
    requires |items| == |parts| && forall i :: 0 <= i < |parts| ==> items[i] == Text(parts[i])
    ensures Texts(parts) == items
  {
    if parts != [] {
      TextsAre(parts[1..], items[1..]);
      assert items == [items[0]] + items[1..];
    }
  }

  /** An enum takes a text, as it is, exactly when it is among the allowed ones. */
  lemma EnumReads(p: ParamDef, allowed: seq<string>, v: string)
    requires p.fieldType == EnumField && allowed != [] && CommaFree(allowed) && p.enumValues == Join(allowed)
    ensures v in allowed ==> Coerce(p, v) == Coerced(Text(v))
    ensures v !in allowed ==> Coerce(p, v) == Invalid(NotInEnum)
  {
    SplitJoin(allowed);
  }

  // ----- the three layers -----

  datatype CoerceResult = Args(members: seq<Member>) | Rejected(key: string, problem: Problem)

  function DefaultLayer(params: seq<ParamDef>): seq<Member> {
    if params == [] then []
    else
      var front, p := DefaultLayer(params[..|params| - 1]), params[|params| - 1];
      if p.defaultValue == Null then front else Put(front, p.key, p.defaultValue)
  }

  function BindingLayer(ms: seq<Member>, args: seq<Member>): seq<Member> {
    if args == [] then ms
    else Put(BindingLayer(ms, args[..|args| - 1]), args[|args| - 1].key, args[|args| - 1].value)
  }

  function QueryLayer(ms: seq<Member>, params: seq<ParamDef>, query: map<string, string>): CoerceResult {
    if params == [] then Args(ms)
    else
      var front, p := QueryLayer(ms, params[..|params| - 1], query), params[|params| - 1];
      if front.Rejected? || p.key !in query then front
      else
        match Coerce(p, query[p.key])
        case Coerced(v) => Args(Put(front.members, p.key, v))
        case Ignored => front
        case Invalid(problem) => Rejected(p.key, problem)
  }

  /** The layers on top of each other: defaults, binding, query. */
  function Layered(defaults: seq<Member>, defaultArgs: Json, params: seq<ParamDef>, query: map<string, string>): CoerceResult {
    QueryLayer(BindingLayer(defaults, Members(defaultArgs)), params, query)
  }

  method CoerceQueryArgs(defaultArgs: Json, params: seq<ParamDef>, query: map<string, string>) returns (r: CoerceResult)
    ensures r == Layered(DefaultLayer(params), defaultArgs, params, query)
  {
    var obj := SeedDefaults(params);
    if defaultArgs.Obj? {
      obj := OverlayBinding(obj, defaultArgs.members);
    }
    r := ApplyQuery(obj, params, query);
  }

  /** The first pass. */
  method SeedDefaults(params: seq<ParamDef>) returns (obj: seq<Member>)
    ensures obj == DefaultLayer(params)
  {
    obj := [];
    for i := 0 to |params|
      invariant obj == DefaultLayer(params[..i])
    {
      assert params[..i + 1][..i] == params[..i];
      if params[i].defaultValue != Null {
        obj := Put(obj, params[i].key, params[i].defaultValue);
      }
    }
    assert params[..|params|] == params;
  }

  /** The second pass. */
  method OverlayBinding(ms: seq<Member>, kvs: seq<Member>) returns (obj: seq<Member>)
    ensures obj == BindingLayer(ms, kvs)
  {
    obj := ms;
    for i := 0 to |kvs|
      invariant obj == BindingLayer(ms, kvs[..i])
    {
      assert kvs[..i + 1][..i] == kvs[..i];
      obj := Put(obj, kvs[i].key, kvs[i].value);
    }
    assert kvs[..|kvs|] == kvs;
  }

  /** The third pass, which stops at the first invalid text. */
  method ApplyQuery(ms: seq<Member>, params: seq<ParamDef>, query: map<string, string>) returns (r: CoerceResult)
    ensures r == QueryLayer(ms, params, query)
  {
    var obj := ms;
    for i := 0 to |params|
      invariant QueryLayer(ms, params[..i], query) == Args(obj)
    {
      var p := params[i];
      assert params[..i + 1][..i] == params[..i];
      if p.key in query {
        var c := CoerceOne(p, query[p.key]);
        if c.Invalid? {
          RejectionStands(ms, params, query, i + 1);
          return Rejected(p.key, c.problem);
        }
        if c.Coerced? {
          obj := Put(obj, p.key, c.value);
        }
      }
    }
    assert params[..|params|] == params;
    return Args(obj);
  }

  lemma {:induction false} RejectionStands(ms: seq<Member>, params: seq<ParamDef>, query: map<string, string>, i: nat)
    requires i <= |params| && QueryLayer(ms, params[..i], query).Rejected?
    ensures QueryLayer(ms, params, query) == QueryLayer(ms, params[..i], query)
    decreases |params|
  {
    if i == |params| {
      assert params[..i] == params;
    } else {
      var front := params[..|params| - 1];
      assert front[..i] == params[..i];
      RejectionStands(ms, front, query, i);
    }
  }

  // ----- what the arguments are -----

  predicate DistinctParams(params: seq<ParamDef>) {
    forall i, j :: 0 <= i < j < |params| ==> params[i].key != params[j].key
  }

  function ParamAt(params: seq<ParamDef>, key: string): (r: Option<ParamDef>)
    ensures r.None? <==> forall p :: p in params ==> p.key != key
    ensures r.Some? ==> r.value in params && r.value.key == key
  {
    if params == [] then None
    else if params[|params| - 1].key == key then Some(params[|params| - 1])
    else ParamAt(params[..|params| - 1], key)
  }

  lemma {:induction false} DefaultLayerAt(params: seq<ParamDef>, key: string)
    requires DistinctParams(params)
    ensures Find(DefaultLayer(params), key) ==
            match ParamAt(params, key)
            case Some(p) => if p.defaultValue == Null then None else Some(p.defaultValue)
            case None => None
  {
    if params != [] {
      var front, p := params[..|params| - 1], params[|params| - 1];
      DefaultLayerAt(front, key);
      FindPut(DefaultLayer(front), p.key, p.defaultValue, key);
      assert p.key == key ==> ParamAt(front, key).None?;
    }
  }

  lemma {:induction false} BindingLayerAt(ms: seq<Member>, args: seq<Member>, key: string)
    requires DistinctKeys(args)
    ensures Find(BindingLayer(ms, args), key) == if Find(args, key).Some? then Find(args, key) else Find(ms, key)
  {
    if args != [] {
      var front, last := args[..|args| - 1], args[|args| - 1];
      BindingLayerAt(ms, front, key);
      FindPut(BindingLayer(ms, front), last.key, last.value, key);
      assert args == front + [last];
      FindAppend(front, [last], key);
      FindIffKey(front, key);
      assert [last][1..] == [];
    }
  }

  /** The query's say on a key, if it has one. */
  function QueryAt(params: seq<ParamDef>, query: map<string, string>, key: string): Coercion {
    match ParamAt(params, key)
    case Some(p) => if key in query then Coerce(p, query[key]) else Ignored
    case None => Ignored
  }

  lemma {:induction false} QueryLayerAt(ms: seq<Member>, params: seq<ParamDef>, query: map<string, string>, key: string)
    requires DistinctParams(params) && QueryLayer(ms, params, query).Args?
    ensures Find(QueryLayer(ms, params, query).members, key) ==
            match QueryAt(params, query, key) case Coerced(v) => Some(v) case _ => Find(ms, key)
    ensures !QueryAt(params, query, key).Invalid?
  {
    if params != [] {
      var front, p := params[..|params| - 1], params[|params| - 1];
      QueryLayerAt(ms, front, query, key);
      assert p.key == key ==> ParamAt(front, key).None?;
      if p.key in query && Coerce(p, query[p.key]).Coerced? {
        FindPut(QueryLayer(ms, front, query).members, p.key, Coerce(p, query[p.key]).value, key);
      }
    }
  }

  /** Successful coercion maps a key to its coerced query value if there is one,
      else to the binding's value, else to the declared default, and maps
      nothing else. */
  lemma CoercedArgsAt(defaultArgs: Json, params: seq<ParamDef>, query: map<string, string>, key: string)
    requires DistinctParams(params) && DistinctKeys(Members(defaultArgs))
    requires Layered(DefaultLayer(params), defaultArgs, params, query).Args?
    ensures Find(Layered(DefaultLayer(params), defaultArgs, params, query).members, key) ==
            match QueryAt(params, query, key)
            case Coerced(v) => Some(v)
            case _ =>
              if Find(Members(defaultArgs), key).Some? then Find(Members(defaultArgs), key)
              else
                match ParamAt(params, key)
                case Some(p) => if p.defaultValue == Null then None else Some(p.defaultValue)
                case None => None
  {
    DefaultLayerAt(params, key);
    BindingLayerAt(DefaultLayer(params), Members(defaultArgs), key);
    QueryLayerAt(BindingLayer(DefaultLayer(params), Members(defaultArgs)), params, query, key);
  }

  /** Coercion is rejected exactly when some parameter's query text is invalid,
      and names the first such parameter. */
  lemma {:induction false} RejectedIff(ms: seq<Member>, params: seq<ParamDef>, query: map<string, string>)
    ensures var r := QueryLayer(ms, params, query);
            if r.Args? then forall p :: p in params && p.key in query ==> !Coerce(p, query[p.key]).Invalid?
            else exists i :: 0 <= i < |params| && params[i].key == r.key && r.key in query
                   && Coerce(params[i], query[r.key]) == Invalid(r.problem)
                   && forall k :: 0 <= k < i && params[k].key in query ==> !Coerce(params[k], query[params[k].key]).Invalid?
  {
    if params != [] {
      var front, p := params[..|params| - 1], params[|params| - 1];
      RejectedIff(ms, front, query);
      var r := QueryLayer(ms, front, query);
      if r.Rejected? {
        var i :| 0 <= i < |front| && front[i].key == r.key && r.key in query
          && Coerce(front[i], query[r.key]) == Invalid(r.problem)
          && forall k :: 0 <= k < i && front[k].key in query ==> !Coerce(front[k], query[front[k].key]).Invalid?;
        assert params[i] == front[i] && forall k :: 0 <= k < i ==> params[k] == front[k];
      } else {
        assert forall q :: q in params ==> q in front || q == p;
        assert forall k :: 0 <= k < |front| ==> params[k] == front[k] && params[k] in front;
      }
    }
  }

  // ----- the frame built from them -----

  lemma {:induction false} BindingLayerDistinct(ms: seq<Member>, args: seq<Member>)
    requires DistinctKeys(ms)
    ensures DistinctKeys(BindingLayer(ms, args))
  {
    if args != [] {
      BindingLayerDistinct(ms, args[..|args| - 1]);
      PutKeepsDistinct(BindingLayer(ms, args[..|args| - 1]), args[|args| - 1].key, args[|args| - 1].value);
    }
  }

  lemma {:induction false} QueryLayerDistinct(ms: seq<Member>, params: seq<ParamDef>, query: map<string, string>)
    requires DistinctKeys(ms) && QueryLayer(ms, params, query).Args?
    ensures DistinctKeys(QueryLayer(ms, params, query).members)
  {
    if params != [] {
      var front, p := params[..|params| - 1], params[|params| - 1];
      QueryLayerDistinct(ms, front, query);
      if p.key in query && Coerce(p, query[p.key]).Coerced? {
        PutKeepsDistinct(QueryLayer(ms, front, query).members, p.key, Coerce(p, query[p.key]).value);
      }
    }
  }

  lemma {:induction false} DefaultLayerDistinct(params: seq<ParamDef>)
    ensures DistinctKeys(DefaultLayer(params))
  {
    if params != [] {
      DefaultLayerDistinct(params[..|params| - 1]);
      PutKeepsDistinct(DefaultLayer(params[..|params| - 1]), params[|params| - 1].key, params[|params| - 1].defaultValue);
    }
  }

  lemma {:induction false} RejectionIgnoresBase(ms: seq<Member>, ms': seq<Member>, params: seq<ParamDef>, query: map<string, string>)
    ensures QueryLayer(ms, params, query).Args? <==> QueryLayer(ms', params, query).Args?
  {
    if params != [] { RejectionIgnoresBase(ms, ms', params[..|params| - 1], query); }
  }

  lemma {:induction false} DefaultsAt(params: seq<ParamDef>, key: string)
    requires DistinctParams(params)
    ensures match ParamAt(params, key)
            case Some(p) =>
              if p.defaultValue == Null then key !in Defaults(params)
              else key in Defaults(params) && Defaults(params)[key] == p.defaultValue
            case None => key !in Defaults(params)
  {
    if params != [] {
      var front, p := params[..|params| - 1], params[|params| - 1];
      DefaultsAt(front, key);
      assert p.key == key ==> ParamAt(front, key).None?;
    }
  }

  /** Building a frame fills in the defaults anyway, so coercing without the
      default layer would give the same frame. */
  lemma DefaultLayerIsRedundant(defaultArgs: Json, params: seq<ParamDef>, query: map<string, string>)
    requires DistinctParams(params) && DistinctKeys(Members(defaultArgs))
    requires Layered(DefaultLayer(params), defaultArgs, params, query).Args?
    ensures var full := Layered(DefaultLayer(params), defaultArgs, params, query);
            var bare := Layered([], defaultArgs, params, query);
            bare.Args? && FrameOf(params, Obj(full.members)) == FrameOf(params, Obj(bare.members))
  {
    var args := Members(defaultArgs);
    var base, base' := BindingLayer(DefaultLayer(params), args), BindingLayer([], args);
    RejectionIgnoresBase(base, base', params, query);
    var full, bare := QueryLayer(base, params, query).members, QueryLayer(base', params, query).members;
    DefaultLayerDistinct(params);
    BindingLayerDistinct(DefaultLayer(params), args);
    BindingLayerDistinct([], args);
    QueryLayerDistinct(base, params, query);
    QueryLayerDistinct(base', params, query);
    var f, b := FrameOf(params, Obj(full)), FrameOf(params, Obj(bare));
    forall key ensures (key in f <==> key in b) && (key in f ==> f[key] == b[key]) {
      OverlayAt(Defaults(params), full, key);
      OverlayAt(Defaults(params), bare, key);
      QueryLayerAt(base, params, query, key);
      QueryLayerAt(base', params, query, key);
      BindingLayerAt(DefaultLayer(params), args, key);
      BindingLayerAt([], args, key);
      DefaultLayerAt(params, key);
      DefaultsAt(params, key);
    }
    assert f.Keys == b.Keys;
  }
}
