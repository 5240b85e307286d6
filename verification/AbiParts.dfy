/** Where the encoder finds what it writes: members by name, items by position, and built-in types. */
module AbiParts {
  import opened Options
  import opened Lists
  import opened Words
  import opened AbiTypes
  import opened AbiSerializer
  import opened AbiCodec

  /** Member `i` is the first of its name. */
  ghost predicate First(s: seq<Member>, i: int, name: Name) {
    0 <= i < |s| && s[i].name == name && forall j :: 0 <= j < i ==> s[j].name != name
  }

  ghost predicate FirstIs(s: seq<Member>, i: int, name: Name, v: Variant) {
    First(s, i, name) && s[i].value == v
  }

  lemma FirstOf(head: Member, s: seq<Member>, i: int, name: Name)
    requires head.name != name && 0 <= i
    ensures First([head] + s, i + 1, name) <==> First(s, i, name)
  {
    var t := [head] + s;
    assert forall j :: 0 <= j < |s| ==> t[j + 1] == s[j];
    if First(t, i + 1, name) {
      forall j | 0 <= j < i ensures s[j].name != name { assert t[j + 1].name != name; }
    }
    if First(s, i, name) {
      forall j | 0 <= j < i + 1 ensures t[j].name != name { if j > 0 { assert t[j] == s[j - 1]; } }
    }
  }

  /** No member has the name. */
  ghost predicate Lacks(s: seq<Member>, name: Name) {
    forall i :: 0 <= i < |s| ==> s[i].name != name
  }

  lemma NoneOf(head: Member, s: seq<Member>, name: Name)
    requires head.name != name && Lacks(s, name)
    ensures Lacks([head] + s, name)
  {
  }

  /** The first member of a name is found, if there is one. */
  lemma {:induction false} LookupExact(l: List<Member>, name: Name)
    ensures Lookup(l, name).None? ==> Lacks(Items(l), name)
    ensures Lookup(l, name).Some? ==> exists i :: FirstIs(Items(l), i, name, Lookup(l, name).value)
  {
    if l.Nil? {
    } else if l.head.name == name {
      assert FirstIs(Items(l), 0, name, l.head.value);
    } else {
      LookupExact(l.tail, name);
      var s := Items(l.tail);
      if Lookup(l.tail, name).Some? {
        var i :| FirstIs(s, i, name, Lookup(l.tail, name).value);
        FirstOf(l.head, s, i, name);
        assert Items(l) == [l.head] + s;
        assert FirstIs(Items(l), i + 1, name, Lookup(l, name).value);
      } else {
        NoneOf(l.head, s, name);
      }
    }
  }

  /** Setting a member replaces the first of that name, or adds one at the end. */
  lemma {:induction false} PutExact(l: List<Member>, name: Name, v: Variant)
    ensures var s, s' := Items(l), Items(Put(l, name, v));
      if Lacks(s, name) then s' == s + [Member(name, v)]
      else exists i :: First(s, i, name) && s' == s[i := Member(name, v)]
  {
    if l.Nil? {
    } else if l.head.name == name {
      assert First(Items(l), 0, name) && Items(Put(l, name, v)) == Items(l)[0 := Member(name, v)];
    } else {
      PutExact(l.tail, name, v);
      var s, m := Items(l.tail), Member(name, v);
      if Lacks(s, name) {
        NoneOf(l.head, s, name);
        assert [l.head] + (s + [m]) == [l.head] + s + [m];
      } else {
        var i :| First(s, i, name) && Items(Put(l.tail, name, v)) == s[i := m];
        FirstOf(l.head, s, i, name);
        assert [l.head] + s[i := m] == ([l.head] + s)[i + 1 := m];
      }
    }
  }

  /** The items of an array at the places of the fields, with nulls for those that are missing. */
  ghost function Given(items: seq<Variant>, i: nat): Variant {
    if i < |items| then items[i] else Null
  }

  lemma {:induction false} NthExact(l: List<Variant>, i: nat)
    ensures Nth(l, i) == Given(Items(l), i)
  {
    if l.Cons? && i > 0 { NthExact(l.tail, i - 1); }
  }

  ghost predicate DistinctFields(fields: seq<FieldDef>) {
    forall i, j :: 0 <= i < j < |fields| ==> fields[i].name != fields[j].name
  }

  /** An object that names the items of an array after the fields. */
  ghost predicate Names(members: List<Member>, fields: seq<FieldDef>, items: List<Variant>) {
    && |Items(members)| == |fields|
    && forall i :: 0 <= i < |fields| ==> Items(members)[i] == Member(fields[i].name, Given(Items(items), i))
  }

  lemma SamePart(members: List<Member>, fields: seq<FieldDef>, items: List<Variant>, i: nat)
    requires DistinctFields(fields) && Names(members, fields, items) && i < |fields|
    ensures Part(Object(members), fields[i].name, i) == Part(Array(items), fields[i].name, i) ==
      Some(Given(Items(items), i))
  {
    NthExact(items, i);
    LookupExact(members, fields[i].name);
    var s := Items(members);
    assert s[i].name == fields[i].name;
    var k :| FirstIs(s, k, fields[i].name, Lookup(members, fields[i].name).value);
  }

  lemma {:induction false} SameFields(abi: Abi, fields: seq<FieldDef>, k: nat, members: List<Member>,
                                      items: List<Variant>, depth: nat)
    requires DistinctFields(fields) && Names(members, fields, items) && k <= |fields| && depth < MAX_RECURSION
    ensures EncodeFields(abi, fields, k, Array(items), depth) == EncodeFields(abi, fields, k, Object(members), depth)
    decreases |fields| - k
  {
    hide Encode, Part, Names;
    if k < |fields| {
      SamePart(members, fields, items, k);
      SameFields(abi, fields, k + 1, members, items, depth);
    }
  }

  /** A struct given as a non-empty array is written like the object that has the i-th item under the name
      of the i-th field, and null for every field beyond the items. */
  lemma ArrayAsObject(abi: Abi, t: Name, members: List<Member>, items: List<Variant>, depth: nat)
    requires Fundamental(Behind(abi, t)) !in abi.builtins.names && !IsArray(Behind(abi, t)) && items.Cons?
    requires GetStruct(abi, Behind(abi, t)).Some? && GetStruct(abi, Behind(abi, t)).value.base == ""
    requires var fields := GetStruct(abi, Behind(abi, t)).value.fields;
      DistinctFields(fields) && Names(members, fields, items)
    ensures Encode(abi, t, Array(items), depth) == Encode(abi, t, Object(members), depth)
  {
    hide EncodeFields, Names, Behind, IsArray, Fundamental;
    var st := GetStruct(abi, Behind(abi, t)).value;
    if depth + 1 < MAX_RECURSION {
      SameFields(abi, st.fields, 0, members, items, depth + 1);
      var b := EncodeFields(abi, st.fields, 0, Object(members), depth + 1);
      assert b.Some? ==> [] + b.value == b.value;
      assert EncodeBase(abi, st, Object(members), depth + 1) == Some([]);
      assert EncodeStruct(abi, Behind(abi, t), Object(members), depth + 1) == b;
      assert EncodeStruct(abi, Behind(abi, t), Array(items), depth + 1) == b;
    }
  }

  /** The members of a struct read back: one for each field, in order, with the meaning of its part. */
  ghost predicate Holding(abi: Abi, fields: seq<FieldDef>, k: nat, v: Variant, members: seq<Member>, depth: nat) {
    && |members| == |fields| && k <= |fields|
    && forall i :: k <= i < |fields| ==>
         && Part(v, fields[i].name, i).Some? && members[i].name == fields[i].name
         && Meaning(abi, fields[i].of, Part(v, fields[i].name, i).value, depth) == Some(members[i].value)
  }

  /** The members so far are those of the first `k` fields. */
  ghost predicate Begins(members: seq<Member>, fields: seq<FieldDef>, k: nat) {
    |members| == k <= |fields| && forall i :: 0 <= i < k ==> members[i].name == fields[i].name
  }

  lemma NextMember(obj: List<Member>, fields: seq<FieldDef>, k: nat, x: Variant)
    requires DistinctFields(fields) && k < |fields| && Begins(Items(obj), fields, k)
    ensures Items(Put(obj, fields[k].name, x)) == Items(obj) + [Member(fields[k].name, x)]
    ensures Begins(Items(Put(obj, fields[k].name, x)), fields, k + 1)
  {
    hide Put, Items;
    assert Lacks(Items(obj), fields[k].name);
    PutExact(obj, fields[k].name, x);
  }

  lemma FirstField(abi: Abi, fields: seq<FieldDef>, k: nat, v: Variant, obj: List<Member>,
                   depth: nat) returns (w: Variant, x: Variant)
    requires k < |fields| && depth < MAX_RECURSION && MeaningOfFields(abi, fields, k, v, obj, depth).Some?
    ensures Part(v, fields[k].name, k) == Some(w) && Meaning(abi, fields[k].of, w, depth) == Some(x)
    ensures MeaningOfFields(abi, fields, k, v, obj, depth) ==
      MeaningOfFields(abi, fields, k + 1, v, Put(obj, fields[k].name, x), depth)
  {
    hide Meaning, Part, Put;
    w := Part(v, fields[k].name, k).value;
    x := Meaning(abi, fields[k].of, w, depth).value;
  }

  lemma HoldingMore(abi: Abi, fields: seq<FieldDef>, k: nat, v: Variant, out: seq<Member>, before: seq<Member>,
                    x: Variant, depth: nat)
    requires k < |fields| && Holding(abi, fields, k + 1, v, out, depth) && |before| == k
    requires out[..k + 1] == before + [Member(fields[k].name, x)]
    requires Part(v, fields[k].name, k).Some?
    requires Meaning(abi, fields[k].of, Part(v, fields[k].name, k).value, depth) == Some(x)
    ensures Holding(abi, fields, k, v, out, depth) && out[..k] == before
  {
    hide Meaning, Part;
    assert out[k] == out[..k + 1][k];
    assert out[..k] == out[..k + 1][..k];
  }

  lemma {:induction false} FieldsInOrder(abi: Abi, fields: seq<FieldDef>, k: nat, v: Variant, obj: List<Member>,
                                         depth: nat)
    requires DistinctFields(fields) && k <= |fields| && depth < MAX_RECURSION && Begins(Items(obj), fields, k)
    requires MeaningOfFields(abi, fields, k, v, obj, depth).Some?
    ensures var out := Items(MeaningOfFields(abi, fields, k, v, obj, depth).value);
      Holding(abi, fields, k, v, out, depth) && out[..k] == Items(obj)
    decreases |fields| - k
  {
    if k == |fields| {
      hide Meaning, Part, Items;
    } else {
      hide Meaning, Part, Put, Items, MeaningOfFields, Holding, Begins, DistinctFields;
      var w, x := FirstField(abi, fields, k, v, obj, depth);
      NextMember(obj, fields, k, x);
      var more := Put(obj, fields[k].name, x);
      FieldsInOrder(abi, fields, k + 1, v, more, depth);
      HoldingMore(abi, fields, k, v, Items(MeaningOfFields(abi, fields, k + 1, v, more, depth).value), Items(obj), x,
        depth);
    }
  }

  /** A struct without a base, given as a non-empty array, is read back as an object whose i-th member is
      what the i-th item means for the i-th field. */
  lemma ArrayBack(abi: Abi, t: Name, items: List<Variant>, e: nat, d: nat, rest: seq<byte>)
    requires Usable(abi) && Encode(abi, t, Array(items), e).Some? && Shaped(abi, t, Array(items), e)
    requires Fundamental(Behind(abi, t)) !in abi.builtins.names && !IsArray(Behind(abi, t)) && items.Cons?
    requires GetStruct(abi, Behind(abi, t)).Some? && GetStruct(abi, Behind(abi, t)).value.base == ""
    requires DistinctFields(GetStruct(abi, Behind(abi, t)).value.fields)
    ensures var r := Decode(abi, t, Encode(abi, t, Array(items), e).value + rest, d);
      var fields := GetStruct(abi, Behind(abi, t)).value.fields;
      r.Some? ==>
        && d + 2 < MAX_RECURSION && r.value.0.Object? && r.value.1 == rest && |Items(r.value.0.members)| == |fields|
        && forall i :: 0 <= i < |fields| ==>
             && Items(r.value.0.members)[i].name == fields[i].name
             && Meaning(abi, fields[i].of, Given(Items(items), i), d + 2) == Some(Items(r.value.0.members)[i].value)
  {
    hide Usable, Shaped, Encode, Decode, Behind, IsArray, Fundamental, MeaningOfFields;
    DecodeEncode(abi, t, Array(items), e, d, rest);
    var st := GetStruct(abi, Behind(abi, t)).value;
    if Meaning(abi, t, Array(items), d).Some? {
      assert MeaningOfStruct(abi, Behind(abi, t), Array(items), Nil, d + 1).Some?;
      assert MeaningOfBase(abi, st, Array(items), Nil, d + 2) == Some(Nil);
      FieldsInOrder(abi, st.fields, 0, Array(items), Nil, d + 2);
      forall i | 0 <= i < |st.fields| ensures Part(Array(items), st.fields[i].name, i) == Some(Given(Items(items), i)) {
        NthExact(items, i);
      }
    }
  }

  /** A type that resolves to a built-in one, alone or with a suffix, is left to the codec of that type, which
      is told whether there was a suffix. */
  lemma BuiltinEncoded(abi: Abi, t: Name, n: Name, v: Variant, depth: nat)
    requires n in abi.builtins.names && depth + 1 < MAX_RECURSION
    ensures Behind(abi, t) == n + "[]" ==> Encode(abi, t, v, depth) == abi.builtins.pack(n, Several, v)
    ensures Behind(abi, t) == n + "?" ==> Encode(abi, t, v, depth) == abi.builtins.pack(n, Maybe, v)
    ensures Behind(abi, t) == n && Fundamental(n) == n ==> Encode(abi, t, v, depth) == abi.builtins.pack(n, Plain, v)
  {
    hide Behind, Fundamental, IsArray, IsOptional;
    SuffixCut(n);
    ArraySuffix(n);
    OptionalSuffix(n);
  }
}
