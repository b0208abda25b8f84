/** What reading a member of an object gives, said on its members. */
module JsonReads {
  import opened JsonTree

  /** The object has this member, and it is the only one with its key. */
  ghost predicate HasMember(j: Json, key: string, v: Json) {
    j.Obj? && exists i :: 0 <= i < |j.members| && j.members[i] == Member(key, v)
                          && forall k :: 0 <= k < i ==> j.members[k].key != key
  }

  /** No object, or one without the key. */
  ghost predicate LacksKey(j: Json, key: string) {
    j.Obj? ==> forall i :: 0 <= i < |j.members| ==> j.members[i].key != key
  }

  lemma {:induction false} FindIffFirst(ms: seq<Member>, key: string, v: Json)
    ensures Find(ms, key) == Some(v) <==> HasMember(Obj(ms), key, v)
    ensures Find(ms, key) == None <==> LacksKey(Obj(ms), key)
  {
    FindIffKey(ms, key);
    if HasMember(Obj(ms), key, v) {
      var i :| 0 <= i < |ms| && ms[i] == Member(key, v) && forall k :: 0 <= k < i ==> ms[k].key != key;
      FindAt(ms, i);
    }
    if Find(ms, key) == Some(v) { FirstHolder(ms, key); }
  }

  lemma {:induction false} FirstHolder(ms: seq<Member>, key: string)
    requires Find(ms, key).Some?
    ensures HasMember(Obj(ms), key, Find(ms, key).value)
  {
    if ms[0].key == key {
      assert ms[0] == Member(key, Find(ms, key).value);
    } else {
      FirstHolder(ms[1..], key);
      var i :| 0 <= i < |ms[1..]| && ms[1..][i] == Member(key, Find(ms, key).value)
        && forall k :: 0 <= k < i ==> ms[1..][k].key != key;
      assert ms[i + 1] == Member(key, Find(ms, key).value);
      assert forall k :: 0 <= k < i + 1 ==> k == 0 || ms[k] == ms[1..][k - 1];
    }
  }

  /** Reading a member gives the first one with the key, and null without one. */
  lemma GetReads(j: Json, key: string, v: Json)
    ensures HasMember(j, key, v) ==> Get(j, key) == v
    ensures LacksKey(j, key) ==> Get(j, key) == Null
  {
    if j.Obj? { FindIffFirst(j.members, key, v); }
  }
}
