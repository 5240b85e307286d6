/** Which ABIs lose values: exactly when every value comes back from its bytes. */
module AbiRoundTrip {
  import opened Options
  import opened Lists
  import opened Words
  import opened AbiTypes
  import opened AbiSerializer
  import opened AbiCodec
  import Varint

  /** The types of an ABI: the names of the built-in types, the typedefs and the structs. */
  datatype Types = Types(names: set<Name>, typedefs: Typedefs, structs: Structs)

  /** The ABI with these types and some codecs for the built-in ones. */
  function Under(ts: Types, b: Builtins): Abi {
    Abi(b, ts.typedefs, ts.structs)
  }

  ghost predicate Codecs(ts: Types, b: Builtins) {
    b.names == ts.names && Lawful(b)
  }

  // The least value of a type

  /** A value of a type in the form the decoder produces, with all its lists empty; None if the type has
      no such value. */
  function Blank(ts: Types, t: Name, depth: nat): Option<Variant>
    decreases MAX_RECURSION - depth, 0, 0
  {
    if depth + 1 >= MAX_RECURSION then None
    else
      var rtype := Resolved(ts.typedefs, t);
      if Fundamental(rtype) in ts.names then Some(Scalar(""))
      else if IsArray(rtype) then Some(Array(Nil))
      else
        match BlankStruct(ts, rtype, depth + 1)
        case None => None
        case Some(l) => if l.Cons? && Distinct(l) then Some(Object(l)) else None
  }

  function BlankStruct(ts: Types, t: Name, depth: nat): Option<List<Member>>
    decreases MAX_RECURSION - depth, 0, 0
  {
    if depth + 1 >= MAX_RECURSION || Resolved(ts.typedefs, t) !in ts.structs then None
    else
      var st := ts.structs[Resolved(ts.typedefs, t)];
      match BlankBase(ts, st, depth + 1)
      case None => None
      case Some(a) =>
        match BlankFields(ts, st.fields, 0, depth + 1)
        case None => None
        case Some(b) => Some(Append(a, b))
  }

  function BlankBase(ts: Types, st: StructDef, depth: nat): Option<List<Member>>
    requires depth < MAX_RECURSION
    decreases MAX_RECURSION - depth, 1, 0
  {
    if st.base == "" then Some(Nil) else BlankStruct(ts, Resolved(ts.typedefs, st.base), depth)
  }

  function BlankFields(ts: Types, fields: seq<FieldDef>, i: nat, depth: nat): Option<List<Member>>
    requires i <= |fields| && depth < MAX_RECURSION
    decreases MAX_RECURSION - depth, 1, |fields| - i
  {
    if i == |fields| then Some(Nil)
    else
      match Blank(ts, fields[i].of, depth)
      case None => None
      case Some(v) =>
        match BlankFields(ts, fields, i + 1, depth)
        case None => None
        case Some(l) => Some(Cons(Member(fields[i].name, v), l))
  }

  /** The encoder can write some object as a value of the type. */
  predicate Writes(ts: Types, t: Name, depth: nat)
    decreases MAX_RECURSION - depth, 0, 0
  {
    depth + 1 < MAX_RECURSION &&
    var rtype := Resolved(ts.typedefs, t);
    Fundamental(rtype) in ts.names || IsArray(rtype) || WritesStruct(ts, rtype, depth + 1)
  }

  predicate WritesStruct(ts: Types, t: Name, depth: nat)
    requires depth < MAX_RECURSION
    decreases MAX_RECURSION - depth, 2, 0
  {
    && Resolved(ts.typedefs, t) in ts.structs
    && var st := ts.structs[Resolved(ts.typedefs, t)];
       WritesBase(ts, st, depth) && WritesFields(ts, st.fields, 0, depth)
  }

  /** A base that is taken for a list is never written. */
  predicate WritesBase(ts: Types, st: StructDef, depth: nat)
    requires depth < MAX_RECURSION
    decreases MAX_RECURSION - depth, 1, 0
  {
    st.base == "" ||
    var base := Resolved(ts.typedefs, st.base);
    depth + 1 < MAX_RECURSION
      && (Fundamental(base) in ts.names || (!IsArray(base) && WritesStruct(ts, base, depth + 1)))
  }

  predicate WritesFields(ts: Types, fields: seq<FieldDef>, i: nat, depth: nat)
    requires i <= |fields| && depth < MAX_RECURSION
    decreases MAX_RECURSION - depth, 1, |fields| - i
  {
    i == |fields| || (Writes(ts, fields[i].of, depth) && WritesFields(ts, fields, i + 1, depth))
  }

  /** One of the bases has the name of a built-in type, and is written as that. */
  predicate BuiltinBase(ts: Types, t: Name, depth: nat)
    decreases MAX_RECURSION - depth
  {
    depth < MAX_RECURSION && Resolved(ts.typedefs, t) in ts.structs &&
    var st := ts.structs[Resolved(ts.typedefs, t)];
    st.base != "" &&
    var base := Resolved(ts.typedefs, st.base);
    Fundamental(base) in ts.names || BuiltinBase(ts, base, depth + 1)
  }

  /** The type is written as a struct, some value of it in the decoder's form can be written, and it is
      the struct behind its own name. */
  ghost predicate InUse(ts: Types, s: Name, d: nat, e: nat) {
    && Resolved(ts.typedefs, s) == s && Fundamental(s) !in ts.names && !IsArray(s)
    && Blank(ts, s, d).Some? && Writes(ts, s, e)
  }

  /** No struct in use is named as if it were optional, or has a base named as a built-in type. */
  ghost predicate Clear(ts: Types) {
    forall s, d: nat, e: nat :: InUse(ts, s, d, e) ==> !IsOptional(s) && !BuiltinBase(ts, s, e + 1)
  }

  // Variants in the decoder's form have a least one of their kind

  /** The members of `l` are named like those of `big` from position `k` on. */
  predicate NamedLike(l: List<Member>, big: List<Member>, k: nat) {
    l.Nil? || (k < Length(big) && l.head.name == At(big, k).name && NamedLike(l.tail, big, k + 1))
  }

  lemma {:induction false} NamedLikeAppend(a: List<Member>, b: List<Member>, big: List<Member>, k: nat)
    requires NamedLike(a, big, k) && NamedLike(b, big, k + Length(a))
    ensures NamedLike(Append(a, b), big, k) && Length(Append(a, b)) == Length(a) + Length(b)
  {
    if a.Cons? { NamedLikeAppend(a.tail, b, big, k + 1); }
  }

  lemma {:induction false} TidyBlank(ts: Types, b: Builtins, t: Name, v: Variant, d: nat)
    requires Codecs(ts, b) && Tidy(Under(ts, b), t, v, d)
    ensures Blank(ts, t, d).Some?
    decreases MAX_RECURSION - d, 0, 0, v
  {
    hide Codecs, Resolved, IsArray, IsOptional, Fundamental, TidyStruct, AllTidy, BlankStruct, Distinct;
    var rtype := Resolved(ts.typedefs, t);
    assert b.names == ts.names by { CodecNames(ts, b); }
    if Fundamental(rtype) !in ts.names && !IsArray(rtype) {
      TidyBlankStruct(ts, b, rtype, v.members, 0, d + 1);
      DistinctLike(BlankStruct(ts, rtype, d + 1).value, v.members);
    }
  }

  lemma CodecNames(ts: Types, b: Builtins)
    requires Codecs(ts, b)
    ensures b.names == ts.names
  {
  }

  lemma {:induction false} TidyBlankStruct(ts: Types, b: Builtins, t: Name, big: List<Member>, k: nat, d: nat)
    requires Codecs(ts, b) && k <= Length(big) && TidyStruct(Under(ts, b), t, big, k, d).Some?
    ensures BlankStruct(ts, t, d).Some?
    ensures var l := BlankStruct(ts, t, d).value;
      NamedLike(l, big, k) && k + Length(l) == TidyStruct(Under(ts, b), t, big, k, d).value
    decreases MAX_RECURSION - d, 0, 0, big
  {
    hide Codecs, Resolved, TidyFields, BlankFields, NamedLike, Append;
    var st := ts.structs[Resolved(ts.typedefs, t)];
    if st.base == "" {
      NamedLikeNil(big, k);
    } else {
      TidyBlankStruct(ts, b, Resolved(ts.typedefs, st.base), big, k, d + 1);
    }
    var k' := TidyBase(Under(ts, b), st, big, k, d + 1).value;
    TidyBlankFields(ts, b, st.fields, 0, big, k', d + 1);
    NamedLikeAppend(BlankBase(ts, st, d + 1).value, BlankFields(ts, st.fields, 0, d + 1).value, big, k);
  }

  lemma NamedLikeNil(big: List<Member>, k: nat)
    ensures NamedLike(Nil, big, k)
  {
  }

  lemma {:induction false} TidyBlankFields(ts: Types, b: Builtins, fields: seq<FieldDef>, i: nat, big: List<Member>,
                                           k: nat, d: nat)
    requires Codecs(ts, b) && i <= |fields| && d < MAX_RECURSION && k <= Length(big)
    requires TidyFields(Under(ts, b), fields, i, big, k, d).Some?
    ensures BlankFields(ts, fields, i, d).Some?
    ensures var l := BlankFields(ts, fields, i, d).value;
      NamedLike(l, big, k) && k + Length(l) == TidyFields(Under(ts, b), fields, i, big, k, d).value
    decreases MAX_RECURSION - d, 1, |fields| - i, big
  {
    hide Codecs, Tidy, Blank, At;
    if i < |fields| {
      TidyBlank(ts, b, fields[i].of, At(big, k).value, d);
      TidyBlankFields(ts, b, fields, i + 1, big, k + 1, d);
    }
  }

  /** Lists with the same names are distinct together. */
  lemma {:induction false} DistinctLike(l: List<Member>, big: List<Member>)
    requires NamedLike(l, big, 0) && Length(l) == Length(big) && Distinct(big)
    ensures Distinct(l)
  {
    if l.Cons? {
      NamedLikeTail(l.tail, big, 0);
      DistinctLike(l.tail, big.tail);
      UnnamedLike(l.tail, big.tail, l.head.name);
    }
  }

  lemma {:induction false} NamedLikeTail(l: List<Member>, big: List<Member>, k: nat)
    requires NamedLike(l, big, k + 1) && big.Cons?
    ensures NamedLike(l, big.tail, k)
  {
    if l.Cons? { NamedLikeTail(l.tail, big, k + 1); }
  }

  lemma {:induction false} UnnamedLike(l: List<Member>, big: List<Member>, name: Name)
    requires NamedLike(l, big, 0) && Length(l) == Length(big) && Unnamed(big, name)
    ensures Unnamed(l, name)
  {
    if l.Cons? {
      NamedLikeTail(l.tail, big, 0);
      UnnamedLike(l.tail, big.tail, name);
    }
  }

  // What can be written, can be written in the decoder's form

  /** Every list has fewer than 2^32 elements. */
  predicate Short(v: Variant) {
    match v
    case Array(items) => Length(items) < TWO32 && AllShort(items)
    case Object(members) => MembersShort(members)
    case _ => true
  }

  predicate AllShort(l: List<Variant>) {
    l.Nil? || (Short(l.head) && AllShort(l.tail))
  }

  predicate MembersShort(l: List<Member>) {
    l.Nil? || (Short(l.head.value) && MembersShort(l.tail))
  }

  lemma {:induction false} ShortAt(l: List<Member>, k: nat)
    requires MembersShort(l) && k < Length(l)
    ensures Short(At(l, k).value)
  {
    if k > 0 { ShortAt(l.tail, k - 1); }
  }

  lemma {:induction false} TidyWrites(ts: Types, b: Builtins, t: Name, v: Variant, d: nat, e: nat)
    requires b.names == ts.names && Usable(Under(ts, b)) && Tidy(Under(ts, b), t, v, d)
    requires Encode(Under(ts, b), t, v, e).Some?
    ensures Writes(ts, t, e)
    decreases MAX_RECURSION - d, 0, 0, v
  {
    hide Usable, Resolved, IsArray, IsOptional, Fundamental, TidyStruct, AllTidy, Distinct, EncodeStruct, EncodeAll,
         WritesStruct;
    var rtype := Resolved(ts.typedefs, t);
    if Fundamental(rtype) !in ts.names && !IsArray(rtype) {
      TidyWritesStruct(ts, b, rtype, v, 0, d + 1, e + 1);
    }
  }

  /** A base that an object is written for is taken for a built-in type or for a struct. */
  lemma BaseWritten(abi: Abi, st: StructDef, v: Variant, e: nat)
    requires Usable(abi) && e < MAX_RECURSION && v.Object? && st.base != "" && EncodeBase(abi, st, v, e).Some?
    ensures e + 1 < MAX_RECURSION
    ensures var base := Behind(abi, st.base);
      Fundamental(base) in abi.builtins.names || (!IsArray(base) && EncodeStruct(abi, base, v, e + 1).Some?)
  {
    hide Usable, Behind, IsArray, IsOptional, Fundamental, EncodeStruct, EncodeAll;
    BehindTwice(abi, st.base);
    assert Encode(abi, Behind(abi, st.base), v, e).Some?;
  }

  lemma {:induction false} TidyWritesStruct(ts: Types, b: Builtins, t: Name, v: Variant, k: nat, d: nat, e: nat)
    requires b.names == ts.names && Usable(Under(ts, b)) && e < MAX_RECURSION && v.Object? && Distinct(v.members)
    requires k <= Length(v.members) && TidyStruct(Under(ts, b), t, v.members, k, d).Some?
    requires EncodeStruct(Under(ts, b), t, v, e).Some?
    ensures WritesStruct(ts, t, e)
    decreases MAX_RECURSION - d, 0, 0, v
  {
    hide Usable, Resolved, IsArray, IsOptional, Fundamental, Distinct, EncodeFields, TidyFields, WritesFields;
    var abi := Under(ts, b);
    var st := ts.structs[Resolved(ts.typedefs, t)];
    if st.base != "" {
      var base := Resolved(ts.typedefs, st.base);
      BaseWritten(abi, st, v, e);
      if Fundamental(base) !in ts.names {
        TidyWritesStruct(ts, b, base, v, k, d + 1, e + 1);
      }
    }
    TidyWritesFields(ts, b, st.fields, 0, v, TidyBase(abi, st, v.members, k, d + 1).value, d + 1, e);
  }

  lemma {:induction false} TidyWritesFields(ts: Types, b: Builtins, fields: seq<FieldDef>, i: nat, v: Variant, k: nat,
                                            d: nat, e: nat)
    requires b.names == ts.names && Usable(Under(ts, b)) && e < MAX_RECURSION && v.Object? && Distinct(v.members)
    requires i <= |fields| && d < MAX_RECURSION && k <= Length(v.members)
    requires TidyFields(Under(ts, b), fields, i, v.members, k, d).Some?
    requires EncodeFields(Under(ts, b), fields, i, v, e).Some?
    ensures WritesFields(ts, fields, i, e)
    decreases MAX_RECURSION - d, 1, |fields| - i, v
  {
    hide Usable, Tidy, Encode, Writes, At, Lookup, Distinct;
    if i < |fields| {
      LookupAt(v.members, k);
      TidyWrites(ts, b, fields[i].of, At(v.members, k).value, d, e);
      TidyWritesFields(ts, b, fields, i + 1, v, k + 1, d, e);
    }
  }

  // Where names are clear, what the encoder writes is shaped

  lemma BlankBehind(ts: Types, b: Builtins, t: Name, d: nat, e: nat)
    requires b.names == ts.names && Usable(Under(ts, b))
    ensures var rtype := Resolved(ts.typedefs, t);
      Resolved(ts.typedefs, rtype) == rtype && Blank(ts, rtype, d) == Blank(ts, t, d)
        && Writes(ts, rtype, e) == Writes(ts, t, e)
  {
    hide Resolved, IsArray, IsOptional, Fundamental, BlankStruct, WritesStruct;
    BehindTwice(Under(ts, b), t);
  }

  lemma ClearAt(ts: Types, b: Builtins, t: Name, v: Variant, d: nat, e: nat)
    requires Codecs(ts, b) && Usable(Under(ts, b)) && Clear(ts) && Tidy(Under(ts, b), t, v, d)
    requires Encode(Under(ts, b), t, v, e).Some?
    requires var rtype := Resolved(ts.typedefs, t); Fundamental(rtype) !in ts.names && !IsArray(rtype)
    ensures var rtype := Resolved(ts.typedefs, t); !IsOptional(rtype) && !BuiltinBase(ts, rtype, e + 1)
  {
    hide Resolved, IsArray, IsOptional, Fundamental, Tidy, Encode, Blank, Writes, BuiltinBase, Usable;
    TidyBlank(ts, b, t, v, d);
    TidyWrites(ts, b, t, v, d, e);
    BlankBehind(ts, b, t, d, e);
    assert InUse(ts, Resolved(ts.typedefs, t), d, e);
  }

  lemma {:induction false} TidyShaped(ts: Types, b: Builtins, t: Name, v: Variant, d: nat, e: nat)
    requires Codecs(ts, b) && Usable(Under(ts, b)) && Clear(ts) && Short(v)
    requires Tidy(Under(ts, b), t, v, d) && Encode(Under(ts, b), t, v, e).Some?
    ensures Shaped(Under(ts, b), t, v, e)
    decreases MAX_RECURSION - d, 0, 0, v
  {
    hide Codecs, Usable, Clear, Resolved, IsArray, IsOptional, Fundamental, TidyStruct, AllTidy, Distinct, EncodeStruct,
         EncodeAll, ShapedStruct, AllShaped, BuiltinBase;
    var abi, rtype := Under(ts, b), Resolved(ts.typedefs, t);
    CodecNames(ts, b);
    if Fundamental(rtype) in ts.names {
    } else if IsArray(rtype) {
      TidyAllShaped(ts, b, Fundamental(rtype), v.items, d + 1, e + 1);
    } else {
      ClearAt(ts, b, t, v, d, e);
      TidyShapedStruct(ts, b, rtype, v, 0, d + 1, e + 1);
    }
  }

  lemma {:induction false} TidyAllShaped(ts: Types, b: Builtins, t: Name, l: List<Variant>, d: nat, e: nat)
    requires Codecs(ts, b) && Usable(Under(ts, b)) && Clear(ts) && AllShort(l) && d < MAX_RECURSION && e < MAX_RECURSION
    requires AllTidy(Under(ts, b), t, l, d) && EncodeAll(Under(ts, b), t, l, e).Some?
    ensures AllShaped(Under(ts, b), t, l, e)
    decreases MAX_RECURSION - d, 1, 0, l
  {
    hide Codecs, Usable, Clear, Tidy, Encode, Shaped;
    if l.Cons? {
      TidyShaped(ts, b, t, l.head, d, e);
      TidyAllShaped(ts, b, t, l.tail, d, e);
    }
  }

  lemma {:induction false} TidyShapedStruct(ts: Types, b: Builtins, t: Name, v: Variant, k: nat, d: nat, e: nat)
    requires Codecs(ts, b) && Usable(Under(ts, b)) && Clear(ts) && e < MAX_RECURSION && v.Object? && Distinct(v.members)
    requires Short(v)
    requires k <= Length(v.members) && TidyStruct(Under(ts, b), t, v.members, k, d).Some?
    requires EncodeStruct(Under(ts, b), t, v, e).Some? && !BuiltinBase(ts, t, e)
    ensures ShapedStruct(Under(ts, b), t, v, e)
    decreases MAX_RECURSION - d, 0, 0, v
  {
    hide Codecs, Usable, Clear, Resolved, IsArray, IsOptional, Fundamental, Distinct, EncodeFields, TidyFields,
         FieldsShaped, Short;
    var abi := Under(ts, b);
    CodecNames(ts, b);
    var st := ts.structs[Resolved(ts.typedefs, t)];
    if st.base != "" {
      var base := Resolved(ts.typedefs, st.base);
      BaseWritten(abi, st, v, e);
      TidyShapedStruct(ts, b, base, v, k, d + 1, e + 1);
    }
    TidyShapedFields(ts, b, st.fields, 0, v, TidyBase(abi, st, v.members, k, d + 1).value, d + 1, e);
  }

  lemma {:induction false} TidyShapedFields(ts: Types, b: Builtins, fields: seq<FieldDef>, i: nat, v: Variant, k: nat,
                                            d: nat, e: nat)
    requires Codecs(ts, b) && Usable(Under(ts, b)) && Clear(ts) && e < MAX_RECURSION && v.Object? && Distinct(v.members)
    requires Short(v)
    requires i <= |fields| && d < MAX_RECURSION && k <= Length(v.members)
    requires TidyFields(Under(ts, b), fields, i, v.members, k, d).Some?
    requires EncodeFields(Under(ts, b), fields, i, v, e).Some?
    ensures FieldsShaped(Under(ts, b), fields, i, v, e)
    decreases MAX_RECURSION - d, 1, |fields| - i, v
  {
    hide Codecs, Usable, Clear, Tidy, Encode, Shaped, At, Lookup, Distinct;
    if i < |fields| {
      LookupAt(v.members, k);
      ShortAt(v.members, k);
      TidyShaped(ts, b, fields[i].of, At(v.members, k).value, d, e);
      TidyShapedFields(ts, b, fields, i + 1, v, k + 1, d, e);
    }
  }

  // Codecs that tell what was lost

  /** Every built-in value is one byte: `mark` for objects, 0 for all others. */
  function Marking(names: set<Name>, mark: byte): Builtins {
    Builtins(
      names,
      (n: Name, shape: Shape, v: Variant) => Some([if v.Object? then mark else 0]),
      (n: Name, shape: Shape, s: seq<byte>) =>
        if s == [] then None else Some((Scalar(if s[0] == 0 then "" else "o"), s[1..])),
      (n: Name, shape: Shape, v: Variant) => Scalar(if v.Object? && mark != 0 then "o" else ""))
  }

  lemma MarkingLawful(ts: Types, mark: byte)
    ensures Codecs(ts, Marking(ts.names, mark))
  {
    var b := Marking(ts.names, mark);
    forall n, shape, v, rest
      ensures b.unpack(n, shape, b.pack(n, shape, v).value + rest) == Some((b.canonical(n, shape, v), rest)) {
      var x: seq<byte> := [if v.Object? then mark else 0];
      assert (x + rest)[1..] == rest;
    }
  }

  /** `l` is the part of `big` from position `k` on. */
  predicate Holds(big: List<Member>, k: nat, l: List<Member>)
    decreases l
  {
    if l.Nil? then k <= Length(big) else k < Length(big) && At(big, k) == l.head && Holds(big, k + 1, l.tail)
  }

  lemma {:induction false} HoldsAppend(big: List<Member>, k: nat, a: List<Member>, b: List<Member>)
    requires Holds(big, k, Append(a, b))
    ensures Holds(big, k, a) && Holds(big, k + Length(a), b) && Length(Append(a, b)) == Length(a) + Length(b)
    decreases a
  {
    if a.Nil? {
      HoldsBound(big, k, b);
    } else {
      HoldsAppend(big, k + 1, a.tail, b);
    }
  }

  lemma {:induction false} HoldsBound(big: List<Member>, k: nat, l: List<Member>)
    requires Holds(big, k, l)
    ensures k + Length(l) <= Length(big)
    decreases l
  {
    if l.Cons? { HoldsBound(big, k + 1, l.tail); }
  }

  lemma {:induction false} HoldsTail(big: List<Member>, k: nat, l: List<Member>)
    requires big.Cons? && Holds(big.tail, k, l)
    ensures Holds(big, k + 1, l)
    decreases l
  {
    if l.Cons? { HoldsTail(big, k + 1, l.tail); }
  }

  lemma {:induction false} HoldsSelf(l: List<Member>)
    ensures Holds(l, 0, l)
  {
    if l.Cons? {
      HoldsSelf(l.tail);
      HoldsTail(l, 0, l.tail);
    }
  }

  lemma {:induction false} BlankTidy(ts: Types, mark: byte, t: Name, d: nat)
    requires Blank(ts, t, d).Some?
    ensures Tidy(Under(ts, Marking(ts.names, mark)), t, Blank(ts, t, d).value, d)
    decreases MAX_RECURSION - d, 0, 0
  {
    hide Resolved, IsArray, IsOptional, Fundamental, TidyStruct, BlankStruct, Distinct;
    var rtype := Resolved(ts.typedefs, t);
    if Fundamental(rtype) !in ts.names && !IsArray(rtype) {
      var l := BlankStruct(ts, rtype, d + 1).value;
      HoldsSelf(l);
      BlankTidyStruct(ts, mark, rtype, d + 1, l, 0);
    }
  }

  lemma {:induction false} BlankTidyStruct(ts: Types, mark: byte, t: Name, d: nat, big: List<Member>, k: nat)
    requires BlankStruct(ts, t, d).Some? && k <= Length(big) && Holds(big, k, BlankStruct(ts, t, d).value)
    ensures TidyStruct(Under(ts, Marking(ts.names, mark)), t, big, k, d) ==
      Some(k + Length(BlankStruct(ts, t, d).value))
    decreases MAX_RECURSION - d, 0, 0
  {
    hide Resolved, TidyFields, BlankFields, Holds, Append;
    var st := ts.structs[Resolved(ts.typedefs, t)];
    var a, b := BlankBase(ts, st, d + 1).value, BlankFields(ts, st.fields, 0, d + 1).value;
    HoldsAppend(big, k, a, b);
    HoldsBound(big, k, a);
    if st.base != "" { BlankTidyStruct(ts, mark, Resolved(ts.typedefs, st.base), d + 1, big, k); }
    BlankTidyFields(ts, mark, st.fields, 0, d + 1, big, k + Length(a));
  }

  lemma {:induction false} BlankTidyFields(ts: Types, mark: byte, fields: seq<FieldDef>, i: nat, d: nat,
                                           big: List<Member>, k: nat)
    requires i <= |fields| && d < MAX_RECURSION && BlankFields(ts, fields, i, d).Some? && k <= Length(big)
    requires Holds(big, k, BlankFields(ts, fields, i, d).value)
    ensures TidyFields(Under(ts, Marking(ts.names, mark)), fields, i, big, k, d) ==
      Some(k + Length(BlankFields(ts, fields, i, d).value))
    decreases MAX_RECURSION - d, 1, |fields| - i
  {
    hide Tidy, Blank, At;
    if i < |fields| {
      BlankTidy(ts, mark, fields[i].of, d);
      BlankTidyFields(ts, mark, fields, i + 1, d, big, k + 1);
    }
  }

  lemma {:induction false} BlankShort(ts: Types, t: Name, d: nat)
    requires Blank(ts, t, d).Some?
    ensures Short(Blank(ts, t, d).value)
    decreases MAX_RECURSION - d, 0, 0
  {
    hide Resolved, IsArray, IsOptional, Fundamental, BlankStruct, Distinct;
    var rtype := Resolved(ts.typedefs, t);
    if Fundamental(rtype) !in ts.names && !IsArray(rtype) { BlankStructShort(ts, rtype, d + 1); }
  }

  lemma {:induction false} BlankStructShort(ts: Types, t: Name, d: nat)
    requires BlankStruct(ts, t, d).Some?
    ensures MembersShort(BlankStruct(ts, t, d).value)
    decreases MAX_RECURSION - d, 0, 0
  {
    hide Resolved, BlankFields, Append;
    var st := ts.structs[Resolved(ts.typedefs, t)];
    if st.base != "" { BlankStructShort(ts, Resolved(ts.typedefs, st.base), d + 1); }
    BlankFieldsShort(ts, st.fields, 0, d + 1);
    AppendShort(BlankBase(ts, st, d + 1).value, BlankFields(ts, st.fields, 0, d + 1).value);
  }

  lemma {:induction false} AppendShort(a: List<Member>, b: List<Member>)
    requires MembersShort(a) && MembersShort(b)
    ensures MembersShort(Append(a, b))
  {
    if a.Cons? { AppendShort(a.tail, b); }
  }

  lemma {:induction false} BlankFieldsShort(ts: Types, fields: seq<FieldDef>, i: nat, d: nat)
    requires i <= |fields| && d < MAX_RECURSION && BlankFields(ts, fields, i, d).Some?
    ensures MembersShort(BlankFields(ts, fields, i, d).value)
    decreases MAX_RECURSION - d, 1, |fields| - i
  {
    hide Blank, Short;
    if i < |fields| {
      BlankShort(ts, fields[i].of, d);
      BlankFieldsShort(ts, fields, i + 1, d);
    }
  }

  // What the encoder writes for the least value

  /** Nothing but zeros if objects are not marked. */
  ghost predicate Written(r: Option<seq<byte>>, mark: byte) {
    r.Some? && (mark == 0 ==> forall i :: 0 <= i < |r.value| ==> r.value[i] == 0)
  }

  lemma {:induction false} BlankWritten(ts: Types, mark: byte, t: Name, d: nat, e: nat)
    requires Acyclic(ts.typedefs) && BasesOk(ts.typedefs, ts.structs) && Blank(ts, t, d).Some? && Writes(ts, t, e)
    ensures Written(Encode(Under(ts, Marking(ts.names, mark)), t, Blank(ts, t, d).value, e), mark)
    decreases MAX_RECURSION - d, 0, 0
  {
    hide Resolved, IsArray, IsOptional, Fundamental, EncodeStruct, BlankStruct, Distinct, WritesStruct, BasesOk,
         Acyclic;
    var rtype := Resolved(ts.typedefs, t);
    if Fundamental(rtype) in ts.names {
    } else if IsArray(rtype) {
      assert Varint.Encode(0) == [0];
    } else {
      var l := BlankStruct(ts, rtype, d + 1).value;
      HoldsSelf(l);
      BlankWrittenStruct(ts, mark, rtype, d + 1, l, 0, e + 1);
    }
  }

  lemma {:induction false} BlankWrittenStruct(ts: Types, mark: byte, t: Name, d: nat, big: List<Member>, k: nat, e: nat)
    requires Acyclic(ts.typedefs) && BasesOk(ts.typedefs, ts.structs) && BlankStruct(ts, t, d).Some? && Distinct(big)
    requires Holds(big, k, BlankStruct(ts, t, d).value) && e < MAX_RECURSION && WritesStruct(ts, t, e)
    ensures Written(EncodeStruct(Under(ts, Marking(ts.names, mark)), t, Object(big), e), mark)
    ensures var r := EncodeStruct(Under(ts, Marking(ts.names, mark)), t, Object(big), e);
      BuiltinBase(ts, t, e) ==> r.Some? && r.value != [] && r.value[0] == mark
    decreases MAX_RECURSION - d, 0, 0
  {
    hide Resolved, IsArray, IsOptional, Fundamental, BlankFields, Holds, Distinct, WritesFields, EncodeFields, Append,
         BasesOk, Acyclic;
    var abi, st := Under(ts, Marking(ts.names, mark)), ts.structs[Resolved(ts.typedefs, t)];
    var a, b := BlankBase(ts, st, d + 1).value, BlankFields(ts, st.fields, 0, d + 1).value;
    HoldsAppend(big, k, a, b);
    if st.base != "" {
      BlankWrittenBase(ts, mark, st, d + 1, big, k, e);
    }
    BlankWrittenFields(ts, mark, st.fields, 0, d + 1, big, k + Length(a), e);
  }

  lemma {:induction false} BlankWrittenBase(ts: Types, mark: byte, st: StructDef, d: nat, big: List<Member>, k: nat,
                                            e: nat)
    requires Acyclic(ts.typedefs) && BasesOk(ts.typedefs, ts.structs) && Distinct(big) && e < MAX_RECURSION
    requires d < MAX_RECURSION
    requires st.base != "" && BlankBase(ts, st, d).Some? && Holds(big, k, BlankBase(ts, st, d).value)
    requires WritesBase(ts, st, e)
    ensures Written(EncodeBase(Under(ts, Marking(ts.names, mark)), st, Object(big), e), mark)
    ensures var r, base :=
      EncodeBase(Under(ts, Marking(ts.names, mark)), st, Object(big), e), Resolved(ts.typedefs, st.base);
      Fundamental(base) in ts.names || BuiltinBase(ts, base, e + 1) ==> r.value != [] && r.value[0] == mark
    decreases MAX_RECURSION - d, 1, 0
  {
    hide Resolved, IsArray, IsOptional, Fundamental, BlankStruct, Holds, Distinct, WritesStruct, EncodeStruct,
         BuiltinBase, BasesOk, Acyclic;
    MarkingLawful(ts, mark);
    BehindTwice(Under(ts, Marking(ts.names, mark)), st.base);
    var base := Resolved(ts.typedefs, st.base);
    if Fundamental(base) !in ts.names { BlankWrittenStruct(ts, mark, base, d, big, k, e + 1); }
  }

  lemma {:induction false} BlankWrittenFields(ts: Types, mark: byte, fields: seq<FieldDef>, i: nat, d: nat,
                                              big: List<Member>, k: nat, e: nat)
    requires Acyclic(ts.typedefs) && BasesOk(ts.typedefs, ts.structs) && Distinct(big) && e < MAX_RECURSION
    requires d < MAX_RECURSION
    requires i <= |fields| && BlankFields(ts, fields, i, d).Some? && Holds(big, k, BlankFields(ts, fields, i, d).value)
    requires WritesFields(ts, fields, i, e)
    ensures Written(EncodeFields(Under(ts, Marking(ts.names, mark)), fields, i, Object(big), e), mark)
    decreases MAX_RECURSION - d, 1, |fields| - i
  {
    hide Blank, Encode, Writes, At, Lookup, Distinct, BasesOk, Acyclic;
    if i < |fields| {
      LookupAt(big, k);
      BlankWritten(ts, mark, fields[i].of, d, e);
      BlankWrittenFields(ts, mark, fields, i + 1, d, big, k + 1, e);
    }
  }

  // What the decoder makes of it

  /** The first thing read of a value is the flag of a struct named as if it were optional. */
  predicate FlagFirst(ts: Types, t: Name, d: nat)
    decreases MAX_RECURSION - d, 0
  {
    var rtype := Resolved(ts.typedefs, t);
    && d + 1 < MAX_RECURSION && Fundamental(rtype) !in ts.names && !IsArray(rtype)
    && (IsOptional(rtype) || FlagFirstStruct(ts, rtype, d + 1))
  }

  predicate FlagFirstStruct(ts: Types, t: Name, d: nat)
    decreases MAX_RECURSION - d, 0
  {
    && d + 1 < MAX_RECURSION && Resolved(ts.typedefs, t) in ts.structs
    && var st := ts.structs[Resolved(ts.typedefs, t)];
       if BaseFilled(ts, st, d + 1) then FlagFirstStruct(ts, Resolved(ts.typedefs, st.base), d + 1)
       else st.fields != [] && FlagFirst(ts, st.fields[0].of, d + 1)
  }

  /** There are members in the base. */
  predicate BaseFilled(ts: Types, st: StructDef, d: nat) {
    d < MAX_RECURSION && BlankBase(ts, st, d).Some? && BlankBase(ts, st, d).value.Cons?
  }

  /** A first byte that the decoder takes for something else. */
  function Wrong(flag: bool): byte {
    if flag then 0 else 1
  }

  /** A value that begins with the wrong byte is not read as the least value of its type. */
  lemma {:induction false} Misread(ts: Types, t: Name, d: nat, mark: byte, s: seq<byte>)
    requires Acyclic(ts.typedefs) && BasesOk(ts.typedefs, ts.structs) && Blank(ts, t, d).Some?
    requires s != [] && s[0] == Wrong(FlagFirst(ts, t, d))
    ensures var r := Decode(Under(ts, Marking(ts.names, mark)), t, s, d);
      r.Some? ==> r.value.0 != Blank(ts, t, d).value
    decreases MAX_RECURSION - d, 0, 0
  {
    hide Resolved, IsArray, IsOptional, Fundamental, DecodeStruct, BlankStruct, FlagFirstStruct, Distinct, DecodeAll,
         BasesOk, Acyclic;
    var abi, rtype := Under(ts, Marking(ts.names, mark)), Resolved(ts.typedefs, t);
    if Fundamental(rtype) in ts.names {
    } else if IsArray(rtype) {
      assert Varint.Decode(s) == Some((1, s[1..]));
      OneRead(abi, Fundamental(rtype), s[1..], d + 1);
    } else if !IsOptional(rtype) {
      MisreadStruct(ts, rtype, d + 1, mark, s);
    }
  }

  lemma OneRead(abi: Abi, t: Name, s: seq<byte>, d: nat)
    requires d < MAX_RECURSION
    ensures var r := DecodeAll(abi, t, 1, s, d); r.Some? ==> r.value.0.Cons?
  {
    hide Decode;
  }

  /** The members read so far do not begin with that of the least value. */
  ghost predicate Spoilt(read: List<Member>, blank: List<Member>) {
    blank.Cons? && read.Cons? && read.head.name == blank.head.name && read.head.value != blank.head.value
  }

  lemma BlankParts(ts: Types, t: Name, d: nat)
    requires BlankStruct(ts, t, d).Some?
    ensures d + 1 < MAX_RECURSION && Resolved(ts.typedefs, t) in ts.structs
    ensures var st := ts.structs[Resolved(ts.typedefs, t)];
      && BlankBase(ts, st, d + 1).Some? && BlankFields(ts, st.fields, 0, d + 1).Some?
      && BlankStruct(ts, t, d).value ==
         Append(BlankBase(ts, st, d + 1).value, BlankFields(ts, st.fields, 0, d + 1).value)
  {
    hide BlankBase, BlankFields, Resolved;
  }

  lemma DecodeParts(abi: Abi, t: Name, s: seq<byte>, d: nat)
    requires d + 1 < MAX_RECURSION && Behind(abi, t) in abi.structs
    ensures var st := abi.structs[Behind(abi, t)];
      DecodeStruct(abi, t, s, Nil, d) ==
        match DecodeBase(abi, st, s, Nil, d + 1)
        case None => None
        case Some((obj, rest)) => DecodeFields(abi, st.fields, 0, rest, obj, d + 1)
  {
    hide DecodeBase, DecodeFields, Resolved;
  }

  /** The first byte is the wrong one for what is read first of a struct. */
  ghost predicate WrongStart(ts: Types, t: Name, d: nat, s: seq<byte>)
    requires BlankStruct(ts, t, d).Some?
  {
    BlankStruct(ts, t, d).value.Cons? ==> s != [] && s[0] == Wrong(FlagFirstStruct(ts, t, d))
  }

  lemma {:induction false} MisreadStruct(ts: Types, t: Name, d: nat, mark: byte, s: seq<byte>)
    requires Acyclic(ts.typedefs) && BasesOk(ts.typedefs, ts.structs) && s != []
    requires BlankStruct(ts, t, d).Some? && Distinct(BlankStruct(ts, t, d).value) && WrongStart(ts, t, d, s)
    ensures var r, l := DecodeStruct(Under(ts, Marking(ts.names, mark)), t, s, Nil, d), BlankStruct(ts, t, d).value;
      r.Some? ==> if l.Nil? then r.value == (Nil, s) else Spoilt(r.value.0, l)
    decreases MAX_RECURSION - d, 0, 0
  {
    hide Resolved, DecodeFields, DecodeBase, DecodeStruct, BlankFields, BlankBase, BlankStruct, Append, Distinct,
         BasesOk, Acyclic, FlagFirst, FlagFirstStruct, WrongStart, Marking;
    BlankParts(ts, t, d);
    var abi, st := Under(ts, Marking(ts.names, mark)), ts.structs[Resolved(ts.typedefs, t)];
    var a, b := BlankBase(ts, st, d + 1).value, BlankFields(ts, st.fields, 0, d + 1).value;
    AppendParts(a, b);
    WrongParts(ts, t, d, s);
    DecodeParts(abi, t, s, d);
    MisreadBase(ts, st, d + 1, mark, s);
    var below := DecodeBase(abi, st, s, Nil, d + 1);
    if below.Some? {
      if a.Cons? {
        FieldNamesApart(ts, st.fields, 0, d + 1, a.head.name);
        HeadKept(abi, st.fields, 0, below.value.1, below.value.0, d + 1);
      } else {
        FirstField(ts, st.fields, d + 1);
        MisreadFields(ts, st.fields, d + 1, mark, s);
      }
    }
  }

  lemma BlankBaseIs(ts: Types, st: StructDef, d: nat)
    requires d < MAX_RECURSION && BlankBase(ts, st, d).Some? && BlankBase(ts, st, d).value.Cons?
    ensures st.base != "" && BlankStruct(ts, Resolved(ts.typedefs, st.base), d) == BlankBase(ts, st, d)
  {
    hide BlankStruct;
  }

  /** What is read first of a struct is read first of its base if that has members, otherwise of its first
      field. */
  lemma FlagStep(ts: Types, t: Name, d: nat)
    requires d + 1 < MAX_RECURSION && Resolved(ts.typedefs, t) in ts.structs
    ensures var st := ts.structs[Resolved(ts.typedefs, t)];
      && (BaseFilled(ts, st, d + 1) ==>
            FlagFirstStruct(ts, t, d) == FlagFirstStruct(ts, Resolved(ts.typedefs, st.base), d + 1))
      && (!BaseFilled(ts, st, d + 1) && st.fields != [] ==>
            FlagFirstStruct(ts, t, d) == FlagFirst(ts, st.fields[0].of, d + 1))
  {
    hide BaseFilled, Resolved, FlagFirst;
  }

  /** Where the wrong byte goes: to the base if that has members, otherwise to the first field. */
  lemma WrongParts(ts: Types, t: Name, d: nat, s: seq<byte>)
    requires BlankStruct(ts, t, d).Some? && WrongStart(ts, t, d, s)
    ensures d + 1 < MAX_RECURSION && Resolved(ts.typedefs, t) in ts.structs
    ensures var st := ts.structs[Resolved(ts.typedefs, t)];
      && BlankBase(ts, st, d + 1).Some?
      && (BlankBase(ts, st, d + 1).value.Cons? ==>
            && st.base != "" && BlankStruct(ts, Resolved(ts.typedefs, st.base), d + 1).Some?
            && WrongStart(ts, Resolved(ts.typedefs, st.base), d + 1, s))
      && (BlankBase(ts, st, d + 1).value.Nil? && st.fields != [] ==>
            && Blank(ts, st.fields[0].of, d + 1).Some? && s != []
            && s[0] == Wrong(FlagFirst(ts, st.fields[0].of, d + 1)))
  {
    hide Resolved, BlankFields, FlagFirst, Append, FlagFirstStruct, BlankStruct, BlankBase, Blank;
    BlankParts(ts, t, d);
    var st := ts.structs[Resolved(ts.typedefs, t)];
    AppendParts(BlankBase(ts, st, d + 1).value, BlankFields(ts, st.fields, 0, d + 1).value);
    FirstField(ts, st.fields, d + 1);
    FlagStep(ts, t, d);
    if BlankBase(ts, st, d + 1).value.Cons? { BlankBaseIs(ts, st, d + 1); }
  }

  lemma {:induction false} MisreadBase(ts: Types, st: StructDef, d: nat, mark: byte, s: seq<byte>)
    requires Acyclic(ts.typedefs) && BasesOk(ts.typedefs, ts.structs) && s != [] && d < MAX_RECURSION
    requires BlankBase(ts, st, d).Some? && Distinct(BlankBase(ts, st, d).value)
    requires BlankBase(ts, st, d).value.Cons? ==>
      && st.base != "" && BlankStruct(ts, Resolved(ts.typedefs, st.base), d).Some?
      && WrongStart(ts, Resolved(ts.typedefs, st.base), d, s)
    ensures var r, l := DecodeBase(Under(ts, Marking(ts.names, mark)), st, s, Nil, d), BlankBase(ts, st, d).value;
      r.Some? ==> if l.Nil? then r.value == (Nil, s) else Spoilt(r.value.0, l)
    decreases MAX_RECURSION - d, 1, 0
  {
    hide Resolved, DecodeStruct, BlankStruct, Distinct, BasesOk, Acyclic, Spoilt, FlagFirstStruct, Marking;
    if st.base == "" {
    } else {
      MisreadStruct(ts, Resolved(ts.typedefs, st.base), d, mark, s);
    }
  }

  lemma FirstField(ts: Types, fields: seq<FieldDef>, d: nat)
    requires d < MAX_RECURSION && BlankFields(ts, fields, 0, d).Some?
    ensures BlankFields(ts, fields, 0, d).value.Cons? <==> fields != []
    ensures fields != [] ==> Blank(ts, fields[0].of, d).Some?
  {
    hide Blank;
  }

  lemma {:induction false} AppendParts(a: List<Member>, b: List<Member>)
    ensures Append(a, b).Nil? <==> a.Nil? && b.Nil?
    ensures a.Cons? ==> Append(a, b).head == a.head
    ensures a.Nil? ==> Append(a, b) == b
    ensures Distinct(Append(a, b)) ==> Distinct(a) && Distinct(b) && (a.Cons? ==> Unnamed(b, a.head.name))
  {
    if a.Cons? && Distinct(Append(a, b)) {
      AppendParts(a.tail, b);
      UnnamedParts(a.tail, b, a.head.name);
    }
  }

  lemma {:induction false} UnnamedParts(a: List<Member>, b: List<Member>, name: Name)
    requires Unnamed(Append(a, b), name)
    ensures Unnamed(a, name) && Unnamed(b, name)
  {
    if a.Cons? { UnnamedParts(a.tail, b, name); }
  }

  lemma {:induction false} FieldNamesApart(ts: Types, fields: seq<FieldDef>, i: nat, d: nat, name: Name)
    requires i <= |fields| && d < MAX_RECURSION && BlankFields(ts, fields, i, d).Some?
    requires Unnamed(BlankFields(ts, fields, i, d).value, name)
    ensures forall j :: i <= j < |fields| ==> fields[j].name != name
    decreases |fields| - i
  {
    hide Blank;
    if i < |fields| { FieldNamesApart(ts, fields, i + 1, d, name); }
  }

  /** Reading on does not change the first member if no field has its name. */
  lemma {:induction false} HeadKept(abi: Abi, fields: seq<FieldDef>, i: nat, s: seq<byte>, obj: List<Member>, d: nat)
    requires i <= |fields| && d < MAX_RECURSION && obj.Cons?
    requires forall j :: i <= j < |fields| ==> fields[j].name != obj.head.name
    ensures var r := DecodeFields(abi, fields, i, s, obj, d);
      r.Some? ==> r.value.0.Cons? && r.value.0.head == obj.head
    decreases |fields| - i
  {
    hide Decode;
    if i < |fields| {
      var r := Decode(abi, Behind(abi, fields[i].of), s, d);
      if r.Some? { HeadKept(abi, fields, i + 1, r.value.1, Put(obj, fields[i].name, r.value.0), d); }
    }
  }

  lemma {:induction false} MisreadFields(ts: Types, fields: seq<FieldDef>, d: nat, mark: byte, s: seq<byte>)
    requires Acyclic(ts.typedefs) && BasesOk(ts.typedefs, ts.structs) && s != [] && d < MAX_RECURSION
    requires BlankFields(ts, fields, 0, d).Some? && Distinct(BlankFields(ts, fields, 0, d).value)
    requires fields != [] ==> Blank(ts, fields[0].of, d).Some? && s[0] == Wrong(FlagFirst(ts, fields[0].of, d))
    ensures var r, l :=
      DecodeFields(Under(ts, Marking(ts.names, mark)), fields, 0, s, Nil, d), BlankFields(ts, fields, 0, d).value;
      r.Some? ==> if l.Nil? then r.value == (Nil, s) else Spoilt(r.value.0, l)
    decreases MAX_RECURSION - d, 1, 0
  {
    hide Decode, Blank, BasesOk, Acyclic, FlagFirst, Resolved;
    var abi := Under(ts, Marking(ts.names, mark));
    if fields != [] {
      MarkingLawful(ts, mark);
      assert Usable(abi);
      DecodeBehind(abi, fields[0].of, s, d);
      Misread(ts, fields[0].of, d, mark, s);
      var r := Decode(abi, Behind(abi, fields[0].of), s, d);
      if r.Some? {
        FieldNamesApart(ts, fields, 1, d, fields[0].name);
        HeadKept(abi, fields, 1, r.value.1, Put(Nil, fields[0].name, r.value.0), d);
      }
    }
  }

  // The exact condition

  /** Every value in the decoder's form that can be written comes back, whatever follows it. */
  ghost predicate RoundTrips(ts: Types, b: Builtins) {
    forall t, v, e: nat, d: nat, rest ::
      Tidy(Under(ts, b), t, v, d) && Short(v) && Encode(Under(ts, b), t, v, e).Some? ==>
        Decode(Under(ts, b), t, Encode(Under(ts, b), t, v, e).value + rest, d) == Some((v, rest))
  }

  lemma ClearRoundTrips(ts: Types, b: Builtins)
    requires Acyclic(ts.typedefs) && BasesOk(ts.typedefs, ts.structs) && Codecs(ts, b) && Clear(ts)
    ensures RoundTrips(ts, b)
  {
    hide Tidy, Encode, Decode, Clear, Codecs, Short, BasesOk, Acyclic;
    assert Usable(Under(ts, b)) by { CodecsUsable(ts, b); }
    forall t, v, e: nat, d: nat, rest |
      Tidy(Under(ts, b), t, v, d) && Short(v) && Encode(Under(ts, b), t, v, e).Some?
      ensures Decode(Under(ts, b), t, Encode(Under(ts, b), t, v, e).value + rest, d) == Some((v, rest))
    {
      TidyShaped(ts, b, t, v, d, e);
      SameVariant(Under(ts, b), t, v, e, d, rest);
    }
  }

  lemma CodecsUsable(ts: Types, b: Builtins)
    requires Acyclic(ts.typedefs) && BasesOk(ts.typedefs, ts.structs) && Codecs(ts, b)
    ensures Usable(Under(ts, b))
  {
  }

  /** A struct in use with the wrong name, or a base with the wrong name, loses its least value. */
  lemma UnclearLoses(ts: Types, s: Name, d: nat, e: nat) returns (b: Builtins)
    requires Acyclic(ts.typedefs) && BasesOk(ts.typedefs, ts.structs) && InUse(ts, s, d, e)
    requires IsOptional(s) || BuiltinBase(ts, s, e + 1)
    ensures Codecs(ts, b) && !RoundTrips(ts, b)
  {
    hide Tidy, Decode, BasesOk, Acyclic, Resolved, IsArray, IsOptional, Fundamental, FlagFirstStruct, BlankStruct,
         Distinct, BuiltinBase, EncodeStruct, WritesStruct;
    var v, mark := Blank(ts, s, d).value, Wrong(FlagFirst(ts, s, d));
    b := Marking(ts.names, mark);
    MarkingLawful(ts, mark);
    BlankTidy(ts, mark, s, d);
    BlankShort(ts, s, d);
    BlankWritten(ts, mark, s, d, e);
    var bytes := Encode(Under(ts, b), s, v, e).value;
    if BuiltinBase(ts, s, e + 1) {
      HoldsSelf(v.members);
      BlankWrittenStruct(ts, mark, s, d + 1, v.members, 0, e + 1);
    }
    Misread(ts, s, d, mark, bytes + [0]);
  }

  /** Whatever the codecs of the built-in types, as long as they read back what they write: every value
      comes back exactly when no struct in use is named as if it were optional or has a base named as a
      built-in type. */
  lemma RoundTripExact(ts: Types)
    requires Acyclic(ts.typedefs) && BasesOk(ts.typedefs, ts.structs)
    ensures Clear(ts) <==> forall b :: Codecs(ts, b) ==> RoundTrips(ts, b)
  {
    hide RoundTrips, Codecs, InUse, BasesOk, Acyclic, BuiltinBase, IsOptional;
    if Clear(ts) {
      forall b | Codecs(ts, b) ensures RoundTrips(ts, b) { ClearRoundTrips(ts, b); }
    } else {
      var s, d: nat, e: nat :| InUse(ts, s, d, e) && (IsOptional(s) || BuiltinBase(ts, s, e + 1));
      var b := UnclearLoses(ts, s, d, e);
    }
  }

  const FIELDS := [FieldDef("a", "uint8")]
  const STRUCTS: Structs := map["x" := StructDef("x", "", FIELDS), "x?" := StructDef("x?", "", FIELDS)]
  const TYPES := Types({"uint8"}, map[], STRUCTS)

  const VALUE := Object(Cons(Member("a", Scalar("")), Nil))

  lemma NamesHere()
    ensures Fundamental("x?") == "x" && IsOptional("x?") && !IsArray("x?") && Fundamental("uint8") == "uint8"
    ensures forall t :: Resolved(TYPES.typedefs, t) == t
    ensures "x" !in TYPES.names && "x?" in TYPES.structs && TYPES.structs["x?"] == StructDef("x?", "", FIELDS)
  {
    forall t ensures Resolved(TYPES.typedefs, t) == t { assert t !in TYPES.typedefs; }
  }

  lemma TypesAccepted()
    ensures WellFormed(TYPES.names, TYPES.typedefs, TYPES.structs, map[], map[])
  {
    NamesHere();
    assert Bases(TYPES.typedefs, TYPES.structs) == map[];
    assert IsType(TYPES.names, TYPES.structs.Keys, TYPES.typedefs, "uint8", 0);
  }

  lemma ValueWritten()
    ensures Encode(Under(TYPES, Marking(TYPES.names, 0)), "x?", VALUE, 0) == Some([0])
    ensures Decode(Under(TYPES, Marking(TYPES.names, 0)), "x?", [0], 0) == Some((Null, []))
  {
    NamesHere();
    hide Fundamental, IsArray, IsOptional, Resolved;
    var abi, st := Under(TYPES, Marking(TYPES.names, 0)), StructDef("x?", "", FIELDS);
    var zero: seq<byte> := [0];
    assert zero + [] == zero && [] + zero == zero && zero[1..] == [];
    assert Encode(abi, "uint8", Scalar(""), 1) == Some(zero);
    assert EncodeFields(abi, FIELDS, 1, VALUE, 1) == Some([]);
    assert Part(VALUE, "a", 0) == Some(Scalar(""));
    assert EncodeFields(abi, FIELDS, 0, VALUE, 1) == Some(zero);
    assert GetStruct(abi, "x?") == Some(st) && EncodeBase(abi, st, VALUE, 1) == Some([]);
    assert EncodeStruct(abi, "x?", VALUE, 1) ==
      Join(EncodeBase(abi, st, VALUE, 1), EncodeFields(abi, st.fields, 0, VALUE, 1));
    assert Behind(abi, "x?") == "x?";
  }

  lemma ValueInUse()
    ensures Blank(TYPES, "x?", 0) == Some(VALUE) && InUse(TYPES, "x?", 0, 0)
  {
    NamesHere();
    hide Fundamental, IsArray, IsOptional, Resolved;
    assert Blank(TYPES, "uint8", 2) == Some(Scalar(""));
    assert BlankFields(TYPES, FIELDS, 1, 2) == Some(Nil);
    assert BlankFields(TYPES, FIELDS, 0, 2) == Some(VALUE.members);
    assert BlankStruct(TYPES, "x?", 1) == Some(VALUE.members);
    assert Writes(TYPES, "uint8", 1);
    assert WritesFields(TYPES, FIELDS, 0, 1);
  }

  /** An ABI that passes every check: a value of struct `x?` is written as a struct and read as null. */
  lemma OptionalStructLost()
    ensures WellFormed(TYPES.names, TYPES.typedefs, TYPES.structs, map[], map[]) && !Clear(TYPES)
    ensures var abi := Under(TYPES, Marking(TYPES.names, 0));
      && Tidy(abi, "x?", VALUE, 0) && Encode(abi, "x?", VALUE, 0) == Some([0])
      && Decode(abi, "x?", [0], 0) == Some((Null, []))
  {
    hide InUse, Tidy, Encode, Decode, WellFormed, BuiltinBase;
    TypesAccepted();
    ValueWritten();
    ValueInUse();
    NamesHere();
    BlankTidy(TYPES, 0, "x?", 0);
  }
}
