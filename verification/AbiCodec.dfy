/** Converting variants to bytes and back under an ABI. */
module AbiCodec {
  import opened Options
  import opened Lists
  import opened Words
  import opened AbiTypes
  import opened AbiSerializer
  import Varint

  datatype Variant = Null | Scalar(text: string) | Array(items: List<Variant>) | Object(members: List<Member>)
  datatype Member = Member(name: Name, value: Variant)

  /** How a built-in type is used: alone, as a list, or optionally. */
  datatype Shape = Plain | Several | Maybe

  function ShapeOf(t: Name): Shape {
    if IsArray(t) then Several else if IsOptional(t) then Maybe else Plain
  }

  /** The codecs of the built-in types, and what each makes of a variant. */
  datatype Builtins = Builtins(
    names: set<Name>,
    pack: (Name, Shape, Variant) -> Option<seq<byte>>,
    unpack: (Name, Shape, seq<byte>) -> Option<(Variant, seq<byte>)>,
    canonical: (Name, Shape, Variant) -> Variant)

  /** Built-in codecs read back what they wrote, whatever follows. */
  ghost predicate Lawful(b: Builtins) {
    forall n, shape, v, rest :: b.pack(n, shape, v).Some? ==>
      b.unpack(n, shape, b.pack(n, shape, v).value + rest) == Some((b.canonical(n, shape, v), rest))
  }

  datatype Abi = Abi(builtins: Builtins, typedefs: Typedefs, structs: Structs)

  /** An ABI as set_abi leaves it. */
  ghost predicate Usable(abi: Abi) {
    Lawful(abi.builtins) && Acyclic(abi.typedefs) && BasesOk(abi.typedefs, abi.structs)
  }

  /** What set_abi accepts is usable. */
  lemma AcceptedUsable(b: Builtins, td: Typedefs, structs: Structs, actions: map<Name, Name>, tables: map<Name, Name>)
    requires Lawful(b) && WellFormed(b.names, td, structs, actions, tables)
    ensures Usable(Abi(b, td, structs))
  {
  }

  function Behind(abi: Abi, t: Name): Name {
    Resolved(abi.typedefs, t)
  }

  function GetStruct(abi: Abi, t: Name): Option<StructDef> {
    if Behind(abi, t) in abi.structs then Some(abi.structs[Behind(abi, t)]) else None
  }

  function Lookup(l: List<Member>, name: Name): Option<Variant> {
    if l.Nil? then None else if l.head.name == name then Some(l.head.value) else Lookup(l.tail, name)
  }

  /** Sets a member of an object: in place if the name is there, else at the end. */
  function Put(l: List<Member>, name: Name, v: Variant): List<Member> {
    if l.Nil? then Cons(Member(name, v), Nil)
    else if l.head.name == name then Cons(Member(name, v), l.tail)
    else Cons(l.head, Put(l.tail, name, v))
  }

  function Nth(l: List<Variant>, i: nat): Variant {
    if l.Nil? then Null else if i == 0 then l.head else Nth(l.tail, i - 1)
  }

  /** The value for a field: by name in an object, by position in an array, where it may be missing. */
  function Part(v: Variant, name: Name, i: nat): Option<Variant> {
    match v
    case Object(members) => Lookup(members, name)
    case Array(items) => Some(Nth(items, i))
    case _ => None
  }

  function Join(a: Option<seq<byte>>, b: Option<seq<byte>>): Option<seq<byte>> {
    if a.None? || b.None? then None else Some(a.value + b.value)
  }

  function Encode(abi: Abi, t: Name, v: Variant, depth: nat): Option<seq<byte>>
    decreases MAX_RECURSION - depth, 0, 0, v
  {
    if depth + 1 >= MAX_RECURSION then None
    else
      var rtype := Behind(abi, t);
      var f := Fundamental(rtype);
      if f in abi.builtins.names then abi.builtins.pack(f, ShapeOf(rtype), v)
      else if IsArray(rtype) then
        if v.Array? then Join(Some(Varint.Encode(Length(v.items) % TWO32)), EncodeAll(abi, f, v.items, depth + 1))
          else None
      else EncodeStruct(abi, rtype, v, depth + 1)
  }

  function EncodeAll(abi: Abi, t: Name, l: List<Variant>, depth: nat): Option<seq<byte>>
    requires depth < MAX_RECURSION
    decreases MAX_RECURSION - depth, 1, 0, l
  {
    if l.Nil? then Some([]) else Join(Encode(abi, t, l.head, depth), EncodeAll(abi, t, l.tail, depth))
  }

  /** A variant that is neither an object nor a non-empty array is written as nothing. */
  function EncodeStruct(abi: Abi, t: Name, v: Variant, depth: nat): Option<seq<byte>>
    requires depth < MAX_RECURSION
    decreases MAX_RECURSION - depth, 2, 0, v
  {
    match GetStruct(abi, t)
    case None => None
    case Some(st) =>
      if v.Object? then Join(EncodeBase(abi, st, v, depth), EncodeFields(abi, st.fields, 0, v, depth))
      else if v.Array? then
        if st.base != "" then None
        else if v.items.Nil? then Some([])
        else EncodeFields(abi, st.fields, 0, v, depth)
      else Some([])
  }

  function EncodeBase(abi: Abi, st: StructDef, v: Variant, depth: nat): Option<seq<byte>>
    requires depth < MAX_RECURSION
    decreases MAX_RECURSION - depth, 1, 0, v
  {
    if st.base == "" then Some([]) else Encode(abi, Behind(abi, st.base), v, depth)
  }

  function EncodeFields(abi: Abi, fields: seq<FieldDef>, i: nat, v: Variant, depth: nat): Option<seq<byte>>
    requires i <= |fields| && depth < MAX_RECURSION
    decreases MAX_RECURSION - depth, 1, |fields| - i, v
  {
    if i == |fields| then Some([])
    else
      match Part(v, fields[i].name, i)
      case None => None
      case Some(w) => Join(Encode(abi, fields[i].of, w, depth), EncodeFields(abi, fields, i + 1, v, depth))
  }

  function Decode(abi: Abi, t: Name, s: seq<byte>, depth: nat): Option<(Variant, seq<byte>)>
    decreases MAX_RECURSION - depth, 0, 0
  {
    if depth + 1 >= MAX_RECURSION then None
    else
      var rtype := Behind(abi, t);
      var f := Fundamental(rtype);
      if f in abi.builtins.names then abi.builtins.unpack(f, ShapeOf(rtype), s)
      else if IsArray(rtype) then
        match Varint.Decode(s)
        case None => None
        case Some((n, rest)) =>
          match DecodeAll(abi, f, n, rest, depth + 1)
          case None => None
          case Some((l, rest')) => Some((Array(l), rest'))
      else if IsOptional(rtype) then
        if s == [] then None
        else if s[0] == 0 then Some((Null, s[1..]))
        else Decode(abi, f, s[1..], depth + 1)
      else
        match DecodeStruct(abi, rtype, s, Nil, depth + 1)
        case None => None
        case Some((members, rest)) => if members.Nil? then None else Some((Object(members), rest))
  }

  function DecodeAll(abi: Abi, t: Name, n: nat, s: seq<byte>, depth: nat): Option<(List<Variant>, seq<byte>)>
    requires depth < MAX_RECURSION
    decreases MAX_RECURSION - depth, 1, n
  {
    if n == 0 then Some((Nil, s))
    else
      match Decode(abi, t, s, depth)
      case None => None
      case Some((v, rest)) =>
        if v.Null? then None
        else
          match DecodeAll(abi, t, n - 1, rest, depth)
          case None => None
          case Some((l, rest')) => Some((Cons(v, l), rest'))
  }

  function DecodeStruct(abi: Abi, t: Name, s: seq<byte>, obj: List<Member>,
                        depth: nat): Option<(List<Member>, seq<byte>)>
    decreases MAX_RECURSION - depth, 0, 0
  {
    if depth + 1 >= MAX_RECURSION then None
    else
      match GetStruct(abi, t)
      case None => None
      case Some(st) =>
        match DecodeBase(abi, st, s, obj, depth + 1)
        case None => None
        case Some((obj', rest)) => DecodeFields(abi, st.fields, 0, rest, obj', depth + 1)
  }

  function DecodeBase(abi: Abi, st: StructDef, s: seq<byte>, obj: List<Member>,
                      depth: nat): Option<(List<Member>, seq<byte>)>
    requires depth < MAX_RECURSION
    decreases MAX_RECURSION - depth, 1, 0
  {
    if st.base == "" then Some((obj, s)) else DecodeStruct(abi, Behind(abi, st.base), s, obj, depth)
  }

  function DecodeFields(abi: Abi, fields: seq<FieldDef>, i: nat, s: seq<byte>, obj: List<Member>,
                        depth: nat): Option<(List<Member>, seq<byte>)>
    requires i <= |fields| && depth < MAX_RECURSION
    decreases MAX_RECURSION - depth, 1, |fields| - i
  {
    if i == |fields| then Some((obj, s))
    else
      match Decode(abi, Behind(abi, fields[i].of), s, depth)
      case None => None
      case Some((v, rest)) => DecodeFields(abi, fields, i + 1, rest, Put(obj, fields[i].name, v), depth)
  }

  /** What a variant means as a value of a type: the variant the decoder gives back for it, or None
      where it refuses: beyond its depth, for structs without fields, and for lists that hold nulls. */
  function Meaning(abi: Abi, t: Name, v: Variant, depth: nat): Option<Variant>
    decreases MAX_RECURSION - depth, 0, 0, v
  {
    if depth + 1 >= MAX_RECURSION then None
    else
      var rtype := Behind(abi, t);
      var f := Fundamental(rtype);
      if f in abi.builtins.names then Some(abi.builtins.canonical(f, ShapeOf(rtype), v))
      else if IsArray(rtype) then
        if !v.Array? then None
        else
          match MeaningOfAll(abi, f, v.items, depth + 1)
          case None => None
          case Some(l) => Some(Array(l))
      else
        match MeaningOfStruct(abi, rtype, v, Nil, depth + 1)
        case None => None
        case Some(members) => if members.Nil? then None else Some(Object(members))
  }

  function MeaningOfAll(abi: Abi, t: Name, l: List<Variant>, depth: nat): Option<List<Variant>>
    requires depth < MAX_RECURSION
    decreases MAX_RECURSION - depth, 1, 0, l
  {
    if l.Nil? then Some(Nil)
    else
      match Meaning(abi, t, l.head, depth)
      case None => None
      case Some(w) =>
        if w.Null? then None
        else
          match MeaningOfAll(abi, t, l.tail, depth)
          case None => None
          case Some(ws) => Some(Cons(w, ws))
  }

  function MeaningOfStruct(abi: Abi, t: Name, v: Variant, obj: List<Member>, depth: nat): Option<List<Member>>
    decreases MAX_RECURSION - depth, 0, 0, v
  {
    if depth + 1 >= MAX_RECURSION then None
    else
      match GetStruct(abi, t)
      case None => None
      case Some(st) =>
        match MeaningOfBase(abi, st, v, obj, depth + 1)
        case None => None
        case Some(obj') => MeaningOfFields(abi, st.fields, 0, v, obj', depth + 1)
  }

  function MeaningOfBase(abi: Abi, st: StructDef, v: Variant, obj: List<Member>, depth: nat): Option<List<Member>>
    requires depth < MAX_RECURSION
    decreases MAX_RECURSION - depth, 1, 0, v
  {
    if st.base == "" then Some(obj) else MeaningOfStruct(abi, Behind(abi, st.base), v, obj, depth)
  }

  function MeaningOfFields(abi: Abi, fields: seq<FieldDef>, i: nat, v: Variant, obj: List<Member>,
                           depth: nat): Option<List<Member>>
    requires i <= |fields| && depth < MAX_RECURSION
    decreases MAX_RECURSION - depth, 1, |fields| - i, v
  {
    if i == |fields| then Some(obj)
    else
      match Part(v, fields[i].name, i)
      case None => None
      case Some(w) =>
        match Meaning(abi, fields[i].of, w, depth)
        case None => None
        case Some(x) => MeaningOfFields(abi, fields, i + 1, v, Put(obj, fields[i].name, x), depth)
  }

  /** Structs are given as objects or non-empty arrays wherever the encoder meets one, and are read back
      as structs: their names do not say optional, and their bases are not taken for anything else. Lists
      have fewer than 2^32 elements. */
  predicate Shaped(abi: Abi, t: Name, v: Variant, depth: nat)
    decreases MAX_RECURSION - depth, 0, 0, v
  {
    if depth + 1 >= MAX_RECURSION then true
    else
      var rtype := Behind(abi, t);
      var f := Fundamental(rtype);
      if f in abi.builtins.names then true
      else if IsArray(rtype) then v.Array? && Length(v.items) < TWO32 && AllShaped(abi, f, v.items, depth + 1)
      else !IsOptional(rtype) && ShapedStruct(abi, rtype, v, depth + 1)
  }

  predicate AllShaped(abi: Abi, t: Name, l: List<Variant>, depth: nat)
    requires depth < MAX_RECURSION
    decreases MAX_RECURSION - depth, 1, 0, l
  {
    l.Nil? || (Shaped(abi, t, l.head, depth) && AllShaped(abi, t, l.tail, depth))
  }

  predicate ShapedStruct(abi: Abi, t: Name, v: Variant, depth: nat)
    requires depth < MAX_RECURSION
    decreases MAX_RECURSION - depth, 2, 0, v
  {
    && (v.Object? || (v.Array? && v.items.Cons?))
    && match GetStruct(abi, t)
       case None => true
       case Some(st) => ShapedBase(abi, st, v, depth) && FieldsShaped(abi, st.fields, 0, v, depth)
  }

  /** The encoder treats the base as a struct, as the decoder does. */
  predicate ShapedBase(abi: Abi, st: StructDef, v: Variant, depth: nat)
    requires depth < MAX_RECURSION
    decreases MAX_RECURSION - depth, 1, 0, v
  {
    st.base != "" ==>
      var base := Behind(abi, st.base);
      && Fundamental(base) !in abi.builtins.names && !IsArray(base)
      && (depth + 1 < MAX_RECURSION ==> ShapedStruct(abi, base, v, depth + 1))
  }

  predicate FieldsShaped(abi: Abi, fields: seq<FieldDef>, i: nat, v: Variant, depth: nat)
    requires i <= |fields| && depth < MAX_RECURSION
    decreases MAX_RECURSION - depth, 1, |fields| - i, v
  {
    i == |fields| ||
    (&& (var w := Part(v, fields[i].name, i); w.Some? ==> Shaped(abi, fields[i].of, w.value, depth))
     && FieldsShaped(abi, fields, i + 1, v, depth))
  }

  function Followed<T>(r: Option<T>, rest: seq<byte>): Option<(T, seq<byte>)> {
    match r case None => None case Some(v) => Some((v, rest))
  }

  /** Whatever the encoder writes for a variant, the decoder reads back as the meaning of that variant
      and leaves what follows; it refuses exactly where the meaning is None. */
  lemma {:induction false} DecodeEncode(abi: Abi, t: Name, v: Variant, e: nat, d: nat, rest: seq<byte>)
    requires Usable(abi) && Encode(abi, t, v, e).Some? && Shaped(abi, t, v, e)
    ensures Decode(abi, t, Encode(abi, t, v, e).value + rest, d) == Followed(Meaning(abi, t, v, d), rest)
    decreases MAX_RECURSION - e, 0, 0, v
  {
    hide Usable, Behind, Varint.Encode, Varint.Decode, EncodeStruct, DecodeStruct, MeaningOfStruct, ShapedStruct,
         EncodeAll, DecodeAll, MeaningOfAll, AllShaped, IsArray, IsOptional, Fundamental;
    if d + 1 >= MAX_RECURSION { return; }
    var rtype := Behind(abi, t);
    var f := Fundamental(rtype);
    if f in abi.builtins.names {
      BuiltinBack(abi, f, ShapeOf(rtype), v, rest);
    } else if IsArray(rtype) {
      var b := EncodeAll(abi, f, v.items, e + 1).value;
      var n := Varint.Encode(Length(v.items));
      assert n + b + rest == n + (b + rest);
      Varint.RoundTrip(Length(v.items), b + rest);
      AllBack(abi, f, v.items, e + 1, d + 1, rest);
    } else {
      StructBack(abi, rtype, v, Nil, e + 1, d + 1, rest);
    }
  }

  lemma {:induction false} BuiltinBack(abi: Abi, n: Name, shape: Shape, v: Variant, rest: seq<byte>)
    requires Usable(abi) && abi.builtins.pack(n, shape, v).Some?
    ensures abi.builtins.unpack(n, shape, abi.builtins.pack(n, shape, v).value + rest) ==
      Some((abi.builtins.canonical(n, shape, v), rest))
  {
  }

  lemma BehindTwice(abi: Abi, t: Name)
    requires Usable(abi)
    ensures Behind(abi, Behind(abi, t)) == Behind(abi, t)
  {
    hide Resolved, Lawful;
    ResolvedIsNoTypedef(abi.typedefs, t);
  }

  lemma {:induction false} AllBack(abi: Abi, t: Name, l: List<Variant>, e: nat, d: nat, rest: seq<byte>)
    requires Usable(abi) && e < MAX_RECURSION && d < MAX_RECURSION
    requires EncodeAll(abi, t, l, e).Some? && AllShaped(abi, t, l, e)
    ensures DecodeAll(abi, t, Length(l), EncodeAll(abi, t, l, e).value + rest, d) ==
      Followed(MeaningOfAll(abi, t, l, d), rest)
    decreases MAX_RECURSION - e, 1, 0, l
  {
    hide Encode, Decode, Meaning, Shaped, Usable;
    if l.Nil? {
      assert [] + rest == rest;
    } else {
      var a, b := Encode(abi, t, l.head, e).value, EncodeAll(abi, t, l.tail, e).value;
      assert a + b + rest == a + (b + rest);
      DecodeEncode(abi, t, l.head, e, d, b + rest);
      AllBack(abi, t, l.tail, e, d, rest);
    }
  }

  lemma {:induction false} StructBack(abi: Abi, t: Name, v: Variant, obj: List<Member>, e: nat, d: nat, rest: seq<byte>)
    requires Usable(abi) && e < MAX_RECURSION && EncodeStruct(abi, t, v, e).Some? && ShapedStruct(abi, t, v, e)
    ensures DecodeStruct(abi, t, EncodeStruct(abi, t, v, e).value + rest, obj, d) ==
      Followed(MeaningOfStruct(abi, t, v, obj, d), rest)
    decreases MAX_RECURSION - e, 2, 0, v
  {
    hide Usable, Resolved, DecodeFields, MeaningOfFields, EncodeFields, FieldsShaped, Encode, Shaped, ShapedBase;
    if d + 1 >= MAX_RECURSION { return; }
    var st := GetStruct(abi, t).value;
    var b := EncodeFields(abi, st.fields, 0, v, e).value;
    if v.Object? {
      var a := EncodeBase(abi, st, v, e).value;
      assert a + b + rest == a + (b + rest);
      if st.base != "" {
        BaseBack(abi, st, v, obj, e, d + 1, b + rest);
      } else {
        assert a + (b + rest) == b + rest;
      }
    }
    var below := MeaningOfBase(abi, st, v, obj, d + 1);
    if below.Some? {
      FieldsBack(abi, st.fields, 0, v, below.value, e, d + 1, rest);
    }
  }

  lemma {:induction false} BaseBack(abi: Abi, st: StructDef, v: Variant, obj: List<Member>, e: nat, d: nat,
                                    rest: seq<byte>)
    requires Usable(abi) && e < MAX_RECURSION && st.base != "" && ShapedBase(abi, st, v, e)
    requires Encode(abi, Behind(abi, st.base), v, e).Some?
    ensures DecodeStruct(abi, Behind(abi, st.base), Encode(abi, Behind(abi, st.base), v, e).value + rest, obj, d)
      == Followed(MeaningOfStruct(abi, Behind(abi, st.base), v, obj, d), rest)
    decreases MAX_RECURSION - e, 0, 0, v
  {
    hide DecodeStruct, MeaningOfStruct, EncodeStruct, ShapedStruct, Behind, Usable;
    BehindTwice(abi, st.base);
    StructBack(abi, Behind(abi, st.base), v, obj, e + 1, d, rest);
  }

  lemma {:induction false} FieldsBack(abi: Abi, fields: seq<FieldDef>, i: nat, v: Variant, obj: List<Member>, e: nat,
                                      d: nat, rest: seq<byte>)
    requires Usable(abi) && e < MAX_RECURSION && d < MAX_RECURSION && i <= |fields|
    requires EncodeFields(abi, fields, i, v, e).Some? && FieldsShaped(abi, fields, i, v, e)
    ensures DecodeFields(abi, fields, i, EncodeFields(abi, fields, i, v, e).value + rest, obj, d)
      == Followed(MeaningOfFields(abi, fields, i, v, obj, d), rest)
    decreases MAX_RECURSION - e, 1, |fields| - i, v
  {
    hide Encode, Decode, Meaning, Shaped, Usable, Put;
    if i == |fields| {
      assert [] + rest == rest;
    } else {
      var w := Part(v, fields[i].name, i).value;
      var a, b := Encode(abi, fields[i].of, w, e).value, EncodeFields(abi, fields, i + 1, v, e).value;
      assert a + b + rest == a + (b + rest);
      DecodeEncode(abi, fields[i].of, w, e, d, b + rest);
      DecodeBehind(abi, fields[i].of, a + (b + rest), d);
      var x := Meaning(abi, fields[i].of, w, d);
      if x.Some? {
        FieldsBack(abi, fields, i + 1, v, Put(obj, fields[i].name, x.value), e, d, rest);
      }
    }
  }

  lemma {:induction false} DecodeBehind(abi: Abi, t: Name, s: seq<byte>, d: nat)
    requires Usable(abi)
    ensures Decode(abi, Behind(abi, t), s, d) == Decode(abi, t, s, d)
  {
    hide Behind, Usable, DecodeAll, DecodeStruct, Varint.Decode, IsArray, IsOptional, Fundamental;
    BehindTwice(abi, t);
  }

  function At(l: List<Member>, k: nat): Member
    requires k < Length(l)
  {
    if k == 0 then l.head else At(l.tail, k - 1)
  }

  function Take(l: List<Member>, k: nat): List<Member>
    requires k <= Length(l)
  {
    if k == 0 then Nil else Cons(l.head, Take(l.tail, k - 1))
  }

  predicate Unnamed(l: List<Member>, name: Name) {
    l.Nil? || (l.head.name != name && Unnamed(l.tail, name))
  }

  predicate Distinct(l: List<Member>) {
    l.Nil? || (Unnamed(l.tail, l.head.name) && Distinct(l.tail))
  }

  /** A variant in the form the decoder produces: objects hold exactly the fields of their struct, base
      first, under distinct names; lists hold no nulls; built-in values are in their own canonical form. */
  predicate Tidy(abi: Abi, t: Name, v: Variant, depth: nat)
    decreases MAX_RECURSION - depth, 0, 0, v
  {
    depth + 1 < MAX_RECURSION &&
    var rtype := Behind(abi, t);
    var f := Fundamental(rtype);
    if f in abi.builtins.names then abi.builtins.canonical(f, ShapeOf(rtype), v) == v
    else if IsArray(rtype) then v.Array? && AllTidy(abi, f, v.items, depth + 1)
    else
      && v.Object? && v.members.Cons? && Distinct(v.members)
      && TidyStruct(abi, rtype, v.members, 0, depth + 1) == Some(Length(v.members))
  }

  predicate AllTidy(abi: Abi, t: Name, l: List<Variant>, depth: nat)
    requires depth < MAX_RECURSION
    decreases MAX_RECURSION - depth, 1, 0, l
  {
    l.Nil? || (!l.head.Null? && Tidy(abi, t, l.head, depth) && AllTidy(abi, t, l.tail, depth))
  }

  /** Matches members from position `k` on against the fields of a struct; the position after them. */
  function TidyStruct(abi: Abi, t: Name, l: List<Member>, k: nat, depth: nat): (r: Option<nat>)
    requires k <= Length(l)
    ensures r.Some? ==> k <= r.value <= Length(l)
    decreases MAX_RECURSION - depth, 0, 0, l
  {
    if depth + 1 >= MAX_RECURSION then None
    else
      match GetStruct(abi, t)
      case None => None
      case Some(st) =>
        match TidyBase(abi, st, l, k, depth + 1)
        case None => None
        case Some(k') => TidyFields(abi, st.fields, 0, l, k', depth + 1)
  }

  function TidyBase(abi: Abi, st: StructDef, l: List<Member>, k: nat, depth: nat): (r: Option<nat>)
    requires k <= Length(l) && depth < MAX_RECURSION
    ensures r.Some? ==> k <= r.value <= Length(l)
    decreases MAX_RECURSION - depth, 1, 0, l
  {
    if st.base == "" then Some(k) else TidyStruct(abi, Behind(abi, st.base), l, k, depth)
  }

  function TidyFields(abi: Abi, fields: seq<FieldDef>, i: nat, l: List<Member>, k: nat, depth: nat): (r: Option<nat>)
    requires i <= |fields| && k <= Length(l) && depth < MAX_RECURSION
    ensures r.Some? ==> k <= r.value <= Length(l)
    decreases MAX_RECURSION - depth, 1, |fields| - i, l
  {
    if i == |fields| then Some(k)
    else if k < Length(l) && At(l, k).name == fields[i].name && Tidy(abi, fields[i].of, At(l, k).value, depth)
    then TidyFields(abi, fields, i + 1, l, k + 1, depth)
    else None
  }

  lemma {:induction false} LookupAt(l: List<Member>, k: nat)
    requires Distinct(l) && k < Length(l)
    ensures Lookup(l, At(l, k).name) == Some(At(l, k).value)
  {
    if k > 0 {
      LookupAt(l.tail, k - 1);
      UnnamedAt(l.tail, k - 1, l.head.name);
    }
  }

  lemma {:induction false} UnnamedAt(l: List<Member>, k: nat, name: Name)
    requires Unnamed(l, name) && k < Length(l)
    ensures At(l, k).name != name
  {
    if k > 0 { UnnamedAt(l.tail, k - 1, name); }
  }

  lemma {:induction false} PutNext(l: List<Member>, k: nat)
    requires Distinct(l) && k < Length(l)
    ensures Put(Take(l, k), At(l, k).name, At(l, k).value) == Take(l, k + 1)
  {
    if k > 0 {
      UnnamedAt(l.tail, k - 1, l.head.name);
      PutNext(l.tail, k - 1);
    }
  }

  lemma {:induction false} TakeAll(l: List<Member>)
    ensures Take(l, Length(l)) == l
  {
    if l.Cons? { TakeAll(l.tail); }
  }

  /** A tidy variant means itself. */
  lemma {:induction false} TidyMeaning(abi: Abi, t: Name, v: Variant, d: nat)
    requires Tidy(abi, t, v, d)
    ensures Meaning(abi, t, v, d) == Some(v)
    decreases MAX_RECURSION - d, 0, 0, v
  {
    hide Behind, IsArray, IsOptional, Fundamental, TidyStruct, MeaningOfStruct, AllTidy, MeaningOfAll;
    var rtype := Behind(abi, t);
    var f := Fundamental(rtype);
    if f in abi.builtins.names {
    } else if IsArray(rtype) {
      TidyMeaningOfAll(abi, f, v.items, d + 1);
    } else {
      TidyMeaningOfStruct(abi, rtype, v, 0, d + 1);
      TakeAll(v.members);
    }
  }

  lemma {:induction false} TidyMeaningOfAll(abi: Abi, t: Name, l: List<Variant>, d: nat)
    requires d < MAX_RECURSION && AllTidy(abi, t, l, d)
    ensures MeaningOfAll(abi, t, l, d) == Some(l)
    decreases MAX_RECURSION - d, 1, 0, l
  {
    hide Tidy, Meaning;
    if l.Cons? {
      TidyMeaning(abi, t, l.head, d);
      TidyMeaningOfAll(abi, t, l.tail, d);
    }
  }

  lemma {:induction false} TidyMeaningOfStruct(abi: Abi, t: Name, v: Variant, k: nat, d: nat)
    requires v.Object? && Distinct(v.members) && k <= Length(v.members) && TidyStruct(abi, t, v.members, k, d).Some?
    ensures MeaningOfStruct(abi, t, v, Take(v.members, k), d) ==
      Some(Take(v.members, TidyStruct(abi, t, v.members, k, d).value))
    decreases MAX_RECURSION - d, 0, 0, v.members
  {
    hide Behind, Take, TidyFields, MeaningOfFields;
    var st := GetStruct(abi, t).value;
    if st.base != "" { TidyMeaningOfStruct(abi, Behind(abi, st.base), v, k, d + 1); }
    var k' := TidyBase(abi, st, v.members, k, d + 1).value;
    TidyMeaningOfFields(abi, st.fields, 0, v, k', d + 1);
  }

  lemma {:induction false} TidyMeaningOfFields(abi: Abi, fields: seq<FieldDef>, i: nat, v: Variant, k: nat, d: nat)
    requires i <= |fields| && d < MAX_RECURSION && v.Object? && Distinct(v.members) && k <= Length(v.members)
    requires TidyFields(abi, fields, i, v.members, k, d).Some?
    ensures MeaningOfFields(abi, fields, i, v, Take(v.members, k), d) ==
      Some(Take(v.members, TidyFields(abi, fields, i, v.members, k, d).value))
    decreases MAX_RECURSION - d, 1, |fields| - i, v.members
  {
    hide Tidy, Meaning, Take, Lookup, Put, At;
    if i < |fields| {
      LookupAt(v.members, k);
      PutNext(v.members, k);
      TidyMeaning(abi, fields[i].of, At(v.members, k).value, d);
      TidyMeaningOfFields(abi, fields, i + 1, v, k + 1, d);
    }
  }

  /** Decoding the bytes of a tidy variant, whatever follows them, gives back that variant and leaves
      what follows. */
  lemma SameVariant(abi: Abi, t: Name, v: Variant, e: nat, d: nat, rest: seq<byte>)
    requires Usable(abi) && Encode(abi, t, v, e).Some? && Shaped(abi, t, v, e) && Tidy(abi, t, v, d)
    ensures Decode(abi, t, Encode(abi, t, v, e).value + rest, d) == Some((v, rest))
  {
    hide Usable, Encode, Shaped, Tidy, Decode, Meaning;
    DecodeEncode(abi, t, v, e, d, rest);
    TidyMeaning(abi, t, v, d);
  }

  /** No built-in value is read from no bytes. */
  ghost predicate Strict(b: Builtins) {
    forall n, shape :: b.unpack(n, shape, []).None?
  }

  /** No value of any type is read from no bytes. */
  lemma {:induction false} NothingFromNothing(abi: Abi, t: Name, d: nat)
    requires Strict(abi.builtins)
    ensures Decode(abi, t, [], d).None?
    decreases MAX_RECURSION - d, 0
  {
    hide Behind, IsArray, IsOptional, Fundamental, DecodeStruct;
    if d + 1 < MAX_RECURSION {
      NoMembersFromNothing(abi, Behind(abi, t), Nil, d + 1);
    }
  }

  lemma {:induction false} NoMembersFromNothing(abi: Abi, t: Name, obj: List<Member>, d: nat)
    requires Strict(abi.builtins)
    ensures DecodeStruct(abi, t, [], obj, d).Some? ==> DecodeStruct(abi, t, [], obj, d) == Some((obj, []))
    decreases MAX_RECURSION - d, 0
  {
    hide Behind, Decode;
    if d + 1 < MAX_RECURSION && GetStruct(abi, t).Some? {
      var st := GetStruct(abi, t).value;
      if st.base != "" { NoMembersFromNothing(abi, Behind(abi, st.base), obj, d + 1); }
      if st.fields != [] { NothingFromNothing(abi, Behind(abi, st.fields[0].of), d + 1); }
    }
  }

  /** The type is written as a struct. */
  predicate WrittenAsStruct(abi: Abi, t: Name) {
    Fundamental(Behind(abi, t)) !in abi.builtins.names && !IsArray(Behind(abi, t))
  }

  /** What the encoder writes for a struct is nothing unless it is given an object or a non-empty array:
      an empty array, a null or a scalar leaves no trace. So it is read back as what it means exactly when
      it is given as an object or a non-empty array. The parts of such a variant are shaped, the built-in
      codecs read nothing from no bytes, and values of the type can be read at all. */
  lemma StructGivenExact(abi: Abi, t: Name, v: Variant, e: nat, d: nat)
    requires Usable(abi) && Strict(abi.builtins) && WrittenAsStruct(abi, t) && Encode(abi, t, v, e).Some?
    requires v.Object? || (v.Array? && v.items.Cons?) ==> Shaped(abi, t, v, e)
    requires exists s :: Decode(abi, t, s, d).Some?
    ensures (forall rest ::
               Decode(abi, t, Encode(abi, t, v, e).value + rest, d) == Followed(Meaning(abi, t, v, d), rest)) <==>
      v.Object? || (v.Array? && v.items.Cons?)
  {
    hide Usable, Shaped, Decode, Meaning, Strict, Behind, IsArray, IsOptional, Fundamental;
    if v.Object? || (v.Array? && v.items.Cons?) {
      forall rest
        ensures Decode(abi, t, Encode(abi, t, v, e).value + rest, d) == Followed(Meaning(abi, t, v, d), rest) {
        DecodeEncode(abi, t, v, e, d, rest);
      }
    } else {
      assert Encode(abi, t, v, e) == Some([]);
      var s :| Decode(abi, t, s, d).Some?;
      var none: seq<byte> := [];
      assert [] + s == s && [] + none == none;
      NothingFromNothing(abi, t, d);
      assert Followed(Meaning(abi, t, v, d), s) != Decode(abi, t, s, d)
        || Followed(Meaning(abi, t, v, d), none) != Decode(abi, t, none, d);
    }
  }

  /** A struct given as an empty array, a null or a scalar is written as nothing and cannot be read back. */
  lemma EmptyArrayLost(abi: Abi, t: Name, v: Variant, e: nat, d: nat)
    requires Strict(abi.builtins) && WrittenAsStruct(abi, t) && Encode(abi, t, v, e).Some?
    requires !v.Object? && (v.Array? ==> v.items.Nil?)
    ensures Encode(abi, t, v, e) == Some([]) && Decode(abi, t, [], d).None?
  {
    hide Behind, IsArray, IsOptional, Fundamental, Decode, Strict;
    NothingFromNothing(abi, t, d);
  }
}
