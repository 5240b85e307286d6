/** Packing values of contract types into bytes and back. */
module Packing {
  import opened Words
  import opened Options
  import opened Lists
  import opened Varint

  /** The packable types. Raw covers numbers, keys and checksums; Record covers classes, tuples and
      std::array, which are packed field by field without a count. A map is a container of records, in
      the order of their first fields. */
  datatype Type =
    | Raw(size: nat)
    | Boolean
    | Unsigned
    | Signed
    | Blob
    | Record(fields: List<Type>)
    | Container(kind: Kind, elem: Type)

  datatype Kind = Array(count: nat) | Vector | Set | Map

  datatype Value =
    | Bytes(bytes: seq<byte>)
    | Flag(flag: bool)
    | Number(number: int)
    | Items(items: List<Value>)

  /** How the elements of a type compare. */
  type Order = (Type, Value, Value) -> bool

  predicate IsEntry(t: Type) {
    t.Record? && t.fields.Cons? && t.fields.tail.Cons? && t.fields.tail.tail.Nil?
  }

  /** Whether one element comes before another in a set or map of type `t`. */
  predicate Less(lt: Order, t: Type, a: Value, b: Value) {
    if t.Container? && t.kind.Set? then lt(t.elem, a, b)
    else
      && t.Container? && IsEntry(t.elem) && a.Items? && a.items.Cons? && b.Items? && b.items.Cons?
      && lt(t.elem.fields.head, a.items.head, b.items.head)
  }

  predicate Increasing(lt: Order, t: Type, l: List<Value>) {
    l.Nil? || (Below(lt, t, l.head, l.tail) && Increasing(lt, t, l.tail))
  }

  predicate Below(lt: Order, t: Type, v: Value, l: List<Value>) {
    l.Nil? || (Less(lt, t, v, l.head) && !Less(lt, t, l.head, v) && Below(lt, t, v, l.tail))
  }

  /** The values of a type: what a variable of that type can hold. */
  predicate HasType(lt: Order, v: Value, t: Type) {
    match t
    case Raw(n) => v.Bytes? && |v.bytes| == n
    case Boolean => v.Flag?
    case Unsigned => v.Number? && 0 <= v.number < TWO32
    case Signed => v.Number? && -TWO31 <= v.number < TWO31
    case Blob => v.Bytes? && |v.bytes| < TWO32
    case Record(ts) => v.Items? && FieldsOfTypes(lt, v.items, ts)
    case Container(kind, e) =>
      && v.Items? && Length(v.items) < TWO32 && AllOfType(lt, v.items, e)
      && (kind.Array? ==> Length(v.items) == kind.count)
      && (kind.Map? ==> IsEntry(e))
      && (kind.Set? || kind.Map? ==> Increasing(lt, t, v.items))
  }

  predicate AllOfType(lt: Order, l: List<Value>, t: Type) {
    l.Nil? || (HasType(lt, l.head, t) && AllOfType(lt, l.tail, t))
  }

  predicate FieldsOfTypes(lt: Order, l: List<Value>, ts: List<Type>) {
    match l
    case Nil => ts.Nil?
    case Cons(v, tail) => ts.Cons? && HasType(lt, v, ts.head) && FieldsOfTypes(lt, tail, ts.tail)
  }

  /** The bytes a value is packed into. */
  function Pack(lt: Order, v: Value, t: Type): seq<byte>
    requires HasType(lt, v, t)
  {
    match t
    case Raw(_) => v.bytes
    case Boolean => [if v.flag then 1 else 0]
    case Unsigned => Encode(v.number)
    case Signed => Encode(Interleave(v.number))
    case Blob => Encode(|v.bytes|) + v.bytes
    case Record(ts) => PackFields(lt, v.items, ts)
    case Container(_, e) => Encode(Length(v.items)) + PackAll(lt, v.items, e)
  }

  function PackAll(lt: Order, l: List<Value>, t: Type): seq<byte>
    requires AllOfType(lt, l, t)
  {
    if l.Nil? then [] else Pack(lt, l.head, t) + PackAll(lt, l.tail, t)
  }

  function PackFields(lt: Order, l: List<Value>, ts: List<Type>): seq<byte>
    requires FieldsOfTypes(lt, l, ts)
  {
    if l.Nil? then [] else Pack(lt, l.head, ts.head) + PackFields(lt, l.tail, ts.tail)
  }

  /** A set or map after one more element is put in: nothing changes if an equivalent one is there. */
  function Insert(lt: Order, t: Type, l: List<Value>, v: Value): List<Value> {
    if l.Nil? then Cons(v, Nil)
    else if Less(lt, t, v, l.head) then Cons(v, l)
    else if Less(lt, t, l.head, v) then Cons(l.head, Insert(lt, t, l.tail, v))
    else l
  }

  function InsertAll(lt: Order, t: Type, l: List<Value>, vs: List<Value>): List<Value>
    decreases vs
  {
    if vs.Nil? then l else InsertAll(lt, t, Insert(lt, t, l, vs.head), vs.tail)
  }

  /** Reads a value of the type off the stream; None when the stream ends too early or a count is wrong. */
  function Unpack(lt: Order, t: Type, s: seq<byte>): Option<(Value, seq<byte>)>
    decreases t, 0, 0
  {
    match t
    case Raw(n) => if |s| < n then None else Some((Bytes(s[..n]), s[n..]))
    case Boolean => if s == [] then None else Some((Flag(s[0] != 0), s[1..]))
    case Unsigned => (match Decode(s) case None => None case Some((n, rest)) => Some((Number(n), rest)))
    case Signed => (match Decode(s) case None => None case Some((n, rest)) => Some((Number(Separate(n)), rest)))
    case Blob =>
      (match Decode(s)
       case None => None
       case Some((n, rest)) => if |rest| < n then None else Some((Bytes(rest[..n]), rest[n..])))
    case Record(ts) =>
      (match UnpackFields(lt, ts, s) case None => None case Some((l, rest)) => Some((Items(l), rest)))
    case Container(kind, e) =>
      match Decode(s)
      case None => None
      case Some((n, rest)) =>
        if kind.Array? && n != kind.count then None
        else
          match UnpackAll(lt, e, n, rest)
          case None => None
          case Some((l, rest')) => Some((Items(if kind.Set? || kind.Map? then InsertAll(lt, t, Nil, l) else l), rest'))
  }

  function UnpackAll(lt: Order, t: Type, n: nat, s: seq<byte>): Option<(List<Value>, seq<byte>)>
    decreases t, 1, n
  {
    if n == 0 then Some((Nil, s))
    else
      match Unpack(lt, t, s)
      case None => None
      case Some((v, rest)) =>
        match UnpackAll(lt, t, n - 1, rest)
        case None => None
        case Some((l, rest')) => Some((Cons(v, l), rest'))
  }

  function UnpackFields(lt: Order, ts: List<Type>, s: seq<byte>): Option<(List<Value>, seq<byte>)>
    decreases ts, 0, 0
  {
    if ts.Nil? then Some((Nil, s))
    else
      match Unpack(lt, ts.head, s)
      case None => None
      case Some((v, rest)) =>
        match UnpackFields(lt, ts.tail, rest)
        case None => None
        case Some((l, rest')) => Some((Cons(v, l), rest'))
  }

  /** Every signed variable-length integer in the value is one the reader can separate again. */
  predicate Separable(lt: Order, v: Value, t: Type)
    requires HasType(lt, v, t)
  {
    match t
    case Raw(_) => true
    case Boolean => true
    case Unsigned => true
    case Signed => -TWO30 <= v.number < TWO30
    case Blob => true
    case Record(ts) => FieldsSeparable(lt, v.items, ts)
    case Container(_, e) => AllSeparable(lt, v.items, e)
  }

  predicate AllSeparable(lt: Order, l: List<Value>, t: Type)
    requires AllOfType(lt, l, t)
  {
    l.Nil? || (Separable(lt, l.head, t) && AllSeparable(lt, l.tail, t))
  }

  predicate FieldsSeparable(lt: Order, l: List<Value>, ts: List<Type>)
    requires FieldsOfTypes(lt, l, ts)
  {
    l.Nil? || (Separable(lt, l.head, ts.head) && FieldsSeparable(lt, l.tail, ts.tail))
  }

  /** The value that is read from the bytes of a value. */
  function Seen(lt: Order, v: Value, t: Type): Value
    requires HasType(lt, v, t)
  {
    match t
    case Raw(_) => v
    case Boolean => v
    case Unsigned => v
    case Signed => Number(Separate(Interleave(v.number)))
    case Blob => v
    case Record(ts) => Items(SeenFields(lt, v.items, ts))
    case Container(kind, e) =>
      var l := SeenAll(lt, v.items, e);
      Items(if kind.Set? || kind.Map? then InsertAll(lt, t, Nil, l) else l)
  }

  function SeenAll(lt: Order, l: List<Value>, t: Type): List<Value>
    requires AllOfType(lt, l, t)
  {
    if l.Nil? then Nil else Cons(Seen(lt, l.head, t), SeenAll(lt, l.tail, t))
  }

  function SeenFields(lt: Order, l: List<Value>, ts: List<Type>): List<Value>
    requires FieldsOfTypes(lt, l, ts)
  {
    if l.Nil? then Nil else Cons(Seen(lt, l.head, ts.head), SeenFields(lt, l.tail, ts.tail))
  }

  /** What unpacking makes of the bytes of any value, leaving what follows on the stream. */
  lemma {:induction false} UnpackSeen(lt: Order, v: Value, t: Type, rest: seq<byte>)
    requires HasType(lt, v, t)
    ensures Unpack(lt, t, Pack(lt, v, t) + rest) == Some((Seen(lt, v, t), rest))
    decreases v
  {
    hide Encode, Decode, Interleave, Separate;
    var s := Pack(lt, v, t) + rest;
    match t
    case Raw(n) => assert s[..n] == v.bytes && s[n..] == rest;
    case Boolean => assert s[1..] == rest;
    case Unsigned => RoundTrip(v.number, rest);
    case Signed => RoundTrip(Interleave(v.number), rest);
    case Blob =>
      assert s == Encode(|v.bytes|) + (v.bytes + rest);
      RoundTrip(|v.bytes|, v.bytes + rest);
      assert (v.bytes + rest)[..|v.bytes|] == v.bytes && (v.bytes + rest)[|v.bytes|..] == rest;
    case Record(ts) => UnpackSeenFields(lt, v.items, ts, rest);
    case Container(kind, e) =>
      assert s == Encode(Length(v.items)) + (PackAll(lt, v.items, e) + rest);
      RoundTrip(Length(v.items), PackAll(lt, v.items, e) + rest);
      UnpackSeenAll(lt, v.items, e, rest);
  }

  lemma {:induction false} UnpackSeenAll(lt: Order, l: List<Value>, t: Type, rest: seq<byte>)
    requires AllOfType(lt, l, t)
    ensures UnpackAll(lt, t, Length(l), PackAll(lt, l, t) + rest) == Some((SeenAll(lt, l, t), rest))
    decreases l
  {
    hide HasType, Pack, Unpack, Seen;
    if l.Nil? {
      assert PackAll(lt, l, t) + rest == rest;
    } else {
      assert PackAll(lt, l, t) + rest == Pack(lt, l.head, t) + (PackAll(lt, l.tail, t) + rest);
      UnpackSeen(lt, l.head, t, PackAll(lt, l.tail, t) + rest);
      UnpackSeenAll(lt, l.tail, t, rest);
    }
  }

  lemma {:induction false} UnpackSeenFields(lt: Order, l: List<Value>, ts: List<Type>, rest: seq<byte>)
    requires FieldsOfTypes(lt, l, ts)
    ensures UnpackFields(lt, ts, PackFields(lt, l, ts) + rest) == Some((SeenFields(lt, l, ts), rest))
    decreases l
  {
    hide HasType, Pack, Unpack, Seen;
    if l.Nil? {
      assert PackFields(lt, l, ts) + rest == rest;
    } else {
      assert PackFields(lt, l, ts) + rest == Pack(lt, l.head, ts.head) + (PackFields(lt, l.tail, ts.tail) + rest);
      UnpackSeen(lt, l.head, ts.head, PackFields(lt, l.tail, ts.tail) + rest);
      UnpackSeenFields(lt, l.tail, ts.tail, rest);
    }
  }

  /** There are no sets or maps in values of the type. */
  predicate Listed(t: Type) {
    match t
    case Record(ts) => AllListed(ts)
    case Container(kind, e) => !kind.Set? && !kind.Map? && Listed(e)
    case _ => true
  }

  predicate AllListed(ts: List<Type>) {
    ts.Nil? || (Listed(ts.head) && AllListed(ts.tail))
  }

  /** A value is seen as it is if its signed variable-length integers have 31 bits, and only then unless
      there are sets or maps in it. */
  lemma {:induction false} SeenExact(lt: Order, v: Value, t: Type)
    requires HasType(lt, v, t)
    ensures Separable(lt, v, t) ==> Seen(lt, v, t) == v
    ensures Listed(t) && Seen(lt, v, t) == v ==> Separable(lt, v, t)
    decreases v
  {
    hide Interleave, Separate;
    match t
    case Raw(_) =>
    case Boolean =>
    case Unsigned =>
    case Signed => SignedExact(v.number);
    case Blob =>
    case Record(ts) => SeenFieldsExact(lt, v.items, ts);
    case Container(kind, e) =>
      SeenAllExact(lt, v.items, e);
      if kind.Set? || kind.Map? { InsertIncreasing(lt, t, Nil, v.items); }
  }

  lemma {:induction false} SeenAllExact(lt: Order, l: List<Value>, t: Type)
    requires AllOfType(lt, l, t)
    ensures AllSeparable(lt, l, t) ==> SeenAll(lt, l, t) == l
    ensures Listed(t) && SeenAll(lt, l, t) == l ==> AllSeparable(lt, l, t)
    decreases l
  {
    hide HasType, Seen, Separable, Listed;
    if l.Cons? {
      SeenExact(lt, l.head, t);
      SeenAllExact(lt, l.tail, t);
    }
  }

  lemma {:induction false} SeenFieldsExact(lt: Order, l: List<Value>, ts: List<Type>)
    requires FieldsOfTypes(lt, l, ts)
    ensures FieldsSeparable(lt, l, ts) ==> SeenFields(lt, l, ts) == l
    ensures AllListed(ts) && SeenFields(lt, l, ts) == l ==> FieldsSeparable(lt, l, ts)
    decreases l
  {
    hide HasType, Seen, Separable, Listed;
    if l.Cons? {
      SeenExact(lt, l.head, ts.head);
      SeenFieldsExact(lt, l.tail, ts.tail);
    }
  }

  /** Unpacking undoes packing and leaves what follows on the stream, if the signed variable-length
      integers have 31 bits; for types without sets and maps, only then. */
  lemma UnpackPack(lt: Order, v: Value, t: Type, rest: seq<byte>)
    requires HasType(lt, v, t)
    ensures Separable(lt, v, t) ==> Unpack(lt, t, Pack(lt, v, t) + rest) == Some((v, rest))
    ensures Listed(t) ==> (Separable(lt, v, t) <==> Unpack(lt, t, Pack(lt, v, t) + rest) == Some((v, rest)))
  {
    hide HasType, Pack, Unpack, Seen, Separable, Listed;
    UnpackSeen(lt, v, t, rest);
    SeenExact(lt, v, t);
  }

  /** The reader swaps the neighbours 2^30 and 2^30 + 1, so a set of the two comes back all the same. */
  lemma SwappedSet()
    ensures var lt: Order := (t: Type, a: Value, b: Value) => a.Number? && b.Number? && a.number < b.number;
      var t, v := Container(Set, Signed), Items(Cons(Number(TWO30), Cons(Number(TWO30 + 1), Nil)));
      HasType(lt, v, t) && !Separable(lt, v, t) && Seen(lt, v, t) == v
  {
    var lt: Order := (t: Type, a: Value, b: Value) => a.Number? && b.Number? && a.number < b.number;
    var t, a, b := Container(Set, Signed), Number(TWO30), Number(TWO30 + 1);
    assert Separate(Interleave(TWO30)) == TWO30 + 1 && Separate(Interleave(TWO30 + 1)) == TWO30;
    assert Less(lt, t, a, b) && !Less(lt, t, b, a);
    assert HasType(lt, a, Signed) && HasType(lt, b, Signed) && !Separable(lt, a, Signed);
    hide Separate, Interleave, Less;
    assert AllOfType(lt, Cons(b, Nil), Signed) && AllOfType(lt, Cons(a, Cons(b, Nil)), Signed);
    assert Below(lt, t, a, Cons(b, Nil)) && Increasing(lt, t, Cons(b, Nil));
    assert Length(Cons(a, Cons(b, Nil))) == 1 + Length(Cons(b, Nil)) == 2;
    assert !AllSeparable(lt, Cons(a, Cons(b, Nil)), Signed);
    assert Seen(lt, a, Signed) == b && Seen(lt, b, Signed) == a;
    assert SeenAll(lt, Cons(b, Nil), Signed) == Cons(a, Nil);
    assert SeenAll(lt, Cons(a, Cons(b, Nil)), Signed) == Cons(b, Cons(a, Nil));
    assert InsertAll(lt, t, Cons(b, Nil), Cons(a, Nil)) == Cons(a, Cons(b, Nil));
  }

  /** Elements that arrive in order are appended one by one. */
  lemma {:induction false} InsertIncreasing(lt: Order, t: Type, l: List<Value>, vs: List<Value>)
    requires Increasing(lt, t, Append(l, vs))
    ensures InsertAll(lt, t, l, vs) == Append(l, vs)
    decreases vs
  {
    if vs.Nil? {
      AppendNil(l);
    } else {
      InsertLast(lt, t, l, vs.head, vs.tail);
      InsertIncreasing(lt, t, Insert(lt, t, l, vs.head), vs.tail);
    }
  }

  /** The elements of a set or map can be put in order. */
  ghost predicate Ordering(lt: Order, t: Type) {
    && (forall a, b :: Less(lt, t, a, b) ==> !Less(lt, t, b, a))
    && forall a, b, c :: Less(lt, t, a, b) && Less(lt, t, b, c) ==> Less(lt, t, a, c)
  }

  /** Sets are ordered by their elements, maps by their keys alone. */
  lemma LessExact(lt: Order, e: Type, a: Value, b: Value, k: Type, v: Type, x: List<Value>, y: List<Value>)
    ensures Less(lt, Container(Set, e), a, b) <==> lt(e, a, b)
    ensures var entry := Record(Cons(k, Cons(v, Nil)));
      Less(lt, Container(Map, entry), Items(Cons(a, x)), Items(Cons(b, y))) <==> lt(k, a, b)
  {
  }

  lemma {:induction false} BelowAll(lt: Order, t: Type, v: Value, w: Value, l: List<Value>)
    requires Ordering(lt, t) && Less(lt, t, v, w) && Below(lt, t, w, l)
    ensures Below(lt, t, v, l)
  {
    hide Less;
    if l.Cons? { BelowAll(lt, t, v, w, l.tail); }
  }

  lemma {:induction false} BelowInserted(lt: Order, t: Type, w: Value, l: List<Value>, v: Value)
    requires Ordering(lt, t) && Below(lt, t, w, l) && Less(lt, t, w, v)
    ensures Below(lt, t, w, Insert(lt, t, l, v))
  {
    hide Less;
    if l.Cons? { BelowInserted(lt, t, w, l.tail, v); }
  }

  /** A set or map stays in order, without duplicates, whatever is put in. */
  lemma {:induction false} InsertOrdered(lt: Order, t: Type, l: List<Value>, v: Value)
    requires Ordering(lt, t) && Increasing(lt, t, l)
    ensures Increasing(lt, t, Insert(lt, t, l, v))
  {
    hide Less, Ordering;
    if l.Nil? {
    } else if Less(lt, t, v, l.head) {
      assert !Less(lt, t, l.head, v) by { OneWay(lt, t, v, l.head); }
      BelowAll(lt, t, v, l.head, l.tail);
    } else if Less(lt, t, l.head, v) {
      BelowInserted(lt, t, l.head, l.tail, v);
      InsertOrdered(lt, t, l.tail, v);
    }
  }

  lemma OneWay(lt: Order, t: Type, a: Value, b: Value)
    requires Ordering(lt, t) && Less(lt, t, a, b)
    ensures !Less(lt, t, b, a)
  {
  }

  /** Whatever elements the bytes spell, and in whatever order, what is read is in order. */
  lemma {:induction false} InsertAllOrdered(lt: Order, t: Type, l: List<Value>, vs: List<Value>)
    requires Ordering(lt, t) && Increasing(lt, t, l)
    ensures Increasing(lt, t, InsertAll(lt, t, l, vs))
    decreases vs
  {
    hide Insert, Ordering;
    if vs.Cons? {
      InsertOrdered(lt, t, l, vs.head);
      InsertAllOrdered(lt, t, Insert(lt, t, l, vs.head), vs.tail);
    }
  }

  /** The element put in is there afterwards, or one that is not told apart from it was there before. */
  lemma {:induction false} InsertThere(lt: Order, t: Type, l: List<Value>, v: Value)
    ensures var s, r := Lists.Items(l), Lists.Items(Insert(lt, t, l, v));
      && (forall x :: x in r ==> x in s || x == v) && (forall x :: x in s ==> x in r)
      && (v in r || exists x :: x in s && !Less(lt, t, x, v) && !Less(lt, t, v, x))
  {
    hide Less;
    if l.Cons? { InsertThere(lt, t, l.tail, v); }
  }

  lemma {:induction false} InsertLast(lt: Order, t: Type, l: List<Value>, v: Value, vs: List<Value>)
    requires Increasing(lt, t, Append(l, Cons(v, vs)))
    ensures Append(Insert(lt, t, l, v), vs) == Append(l, Cons(v, vs))
    decreases l
  {
    hide Less;
    if l.Cons? {
      InsertLast(lt, t, l.tail, v, vs);
      BelowAppended(lt, t, l.head, l.tail, v, vs);
    }
  }

  lemma {:induction false} BelowAppended(lt: Order, t: Type, x: Value, l: List<Value>, v: Value, vs: List<Value>)
    requires Below(lt, t, x, Append(l, Cons(v, vs)))
    ensures Less(lt, t, x, v) && !Less(lt, t, v, x)
    decreases l
  {
    hide Less;
    if l.Cons? { BelowAppended(lt, t, x, l.tail, v, vs); }
  }

  lemma {:induction false} AppendNil<T>(l: List<T>)
    ensures Append(l, Nil) == l
  {
    if l.Cons? { AppendNil(l.tail); }
  }
}
