/** The streams behind pack and unpack. */
module Datastream {
  import opened Words
  import opened Options
  import opened Lists
  import opened Varint
  import opened Packing

  /** A stream that is written to: into a buffer of fixed size, or, when counting, only to learn the size. */
  class Stream {
    const counting: bool
    const data: array<byte>
    var pos: nat

    ghost predicate Valid()
      reads this
    {
      counting || pos <= data.Length
    }

    constructor Counter()
      ensures Valid() && counting && pos == 0 && fresh(data)
    {
      counting, pos := true, 0;
      data := new byte[0];
    }

    constructor Buffer(size: nat)
      ensures Valid() && !counting && pos == 0 && fresh(data) && data.Length == size
    {
      counting, pos := false, 0;
      data := new byte[size];
    }

    /** Whether that many more bytes can be written. */
    predicate Room(n: nat)
      reads this
    {
      counting || pos + n <= data.Length
    }

    method Write(bytes: seq<byte>) returns (ok: bool)
      requires Valid()
      modifies this, data
      ensures Valid() && (ok <==> old(Room(|bytes|)))
      ensures ok ==> Appended(this, bytes)
    {
      if !Room(|bytes|) {
        return false;
      }
      if !counting {
        var i := 0;
        while i < |bytes|
          invariant i <= |bytes| && pos == old(pos)
          invariant data[..pos + i] == old(data[..pos]) + bytes[..i]
          modifies data
        {
          data[pos + i] := bytes[i];
          i := i + 1;
        }
      }
      pos := pos + |bytes|;
      ok := true;
    }
  }

  /** The bytes were written next, after what was there before. */
  twostate predicate Appended(ds: Stream, bytes: seq<byte>)
    reads ds, ds.data
  {
    && ds.pos == old(ds.pos) + |bytes|
    && (!ds.counting ==>
      ds.pos <= ds.data.Length && old(ds.pos) <= ds.pos && ds.data[..ds.pos] == old(ds.data[..])[..old(ds.pos)] + bytes)
  }

  method WriteUnsigned(n: nat, ds: Stream) returns (ok: bool)
    requires ds.Valid()
    modifies ds, ds.data
    ensures ds.Valid() && (ok <==> old(ds.Room(|Encode(n)|)))
    ensures ok ==> Appended(ds, Encode(n))
  {
    var val := n;
    ghost var done: seq<byte> := [];
    while true
      invariant ds.Valid() && Encode(n) == done + Encode(val) && Appended(ds, done)
      decreases val
    {
      var b: byte := val % 128;
      var more := val / 128;
      if more > 0 {
        b := b + 128;
      }
      ok := ds.Write([b]);
      if !ok {
        return;
      }
      done := done + [b];
      if more == 0 {
        return true;
      }
      val := more;
    }
  }

  method WriteBlob(bytes: seq<byte>, ds: Stream) returns (ok: bool)
    requires ds.Valid()
    modifies ds, ds.data
    ensures ds.Valid() && (ok <==> old(ds.Room(|Encode(|bytes|) + bytes|)))
    ensures ok ==> Appended(ds, Encode(|bytes|) + bytes)
  {
    hide Encode;
    ok := WriteUnsigned(|bytes|, ds);
    if ok {
      ok := ds.Write(bytes);
    }
  }

  /** Writes a value, field by field and element by element. */
  method PackTo(lt: Order, v: Value, t: Type, ds: Stream) returns (ok: bool)
    requires HasType(lt, v, t) && ds.Valid()
    modifies ds, ds.data
    ensures ds.Valid() && (ok <==> old(ds.Room(|Pack(lt, v, t)|)))
    ensures ok ==> Appended(ds, Pack(lt, v, t))
    decreases v, 0
  {
    hide Encode, Appended, PackAll, PackFields;
    match t {
      case Raw(_) => ok := ds.Write(v.bytes);
      case Boolean => ok := ds.Write([if v.flag then 1 else 0]);
      case Unsigned => ok := WriteUnsigned(v.number, ds);
      case Signed => ok := WriteUnsigned(Interleave(v.number), ds);
      case Blob => ok := WriteBlob(v.bytes, ds);
      case Record(ts) => ok := PackFieldsTo(lt, v.items, ts, ds);
      case Container(_, e) => ok := PackCountedTo(lt, v.items, e, ds);
    }
  }

  method PackCountedTo(lt: Order, l: List<Value>, t: Type, ds: Stream) returns (ok: bool)
    requires AllOfType(lt, l, t) && ds.Valid()
    modifies ds, ds.data
    ensures ds.Valid() && (ok <==> old(ds.Room(|Encode(Length(l)) + PackAll(lt, l, t)|)))
    ensures ok ==> Appended(ds, Encode(Length(l)) + PackAll(lt, l, t))
    decreases l, 1
  {
    hide Encode, PackAll;
    ok := WriteUnsigned(Length(l), ds);
    if ok {
      ok := PackAllTo(lt, l, t, ds);
    }
  }

  method PackAllTo(lt: Order, l: List<Value>, t: Type, ds: Stream) returns (ok: bool)
    requires AllOfType(lt, l, t) && ds.Valid()
    modifies ds, ds.data
    ensures ds.Valid() && (ok <==> old(ds.Room(|PackAll(lt, l, t)|)))
    ensures ok ==> Appended(ds, PackAll(lt, l, t))
    decreases l, 0
  {
    hide Pack;
    if l.Nil? {
      return true;
    }
    ok := PackTo(lt, l.head, t, ds);
    if ok {
      ok := PackAllTo(lt, l.tail, t, ds);
    }
  }

  method PackFieldsTo(lt: Order, l: List<Value>, ts: List<Type>, ds: Stream) returns (ok: bool)
    requires FieldsOfTypes(lt, l, ts) && ds.Valid()
    modifies ds, ds.data
    ensures ds.Valid() && (ok <==> old(ds.Room(|PackFields(lt, l, ts)|)))
    ensures ok ==> Appended(ds, PackFields(lt, l, ts))
    decreases l, 0
  {
    hide Pack;
    if l.Nil? {
      return true;
    }
    ok := PackTo(lt, l.head, ts.head, ds);
    if ok {
      ok := PackFieldsTo(lt, l.tail, ts.tail, ds);
    }
  }

  method PackSize(lt: Order, v: Value, t: Type) returns (n: nat)
    requires HasType(lt, v, t)
    ensures n == |Pack(lt, v, t)|
  {
    var ds := new Stream.Counter();
    var ok := PackTo(lt, v, t, ds);
    n := ds.pos;
  }

  /** Packs a value into a buffer of the counted size: the bytes fill it exactly. */
  method PackValue(lt: Order, v: Value, t: Type) returns (bytes: seq<byte>)
    requires HasType(lt, v, t)
    ensures bytes == Pack(lt, v, t)
  {
    var n := PackSize(lt, v, t);
    var ds := new Stream.Buffer(n);
    var ok := PackTo(lt, v, t, ds);
    assert ok;
    bytes := ds.data[..];
    assert bytes == ds.data[..ds.pos];
  }

  /** A stream that is read from. */
  class Reader {
    const data: seq<byte>
    var pos: nat

    ghost predicate Valid()
      reads this
    {
      pos <= |data|
    }

    ghost function Rest(): seq<byte>
      requires Valid()
      reads this
    {
      data[pos..]
    }

    constructor (data: seq<byte>)
      ensures Valid() && Rest() == data
    {
      this.data, pos := data, 0;
    }

    method Read(n: nat) returns (r: Option<seq<byte>>)
      requires Valid()
      modifies this
      ensures Valid() && (r.Some? <==> n <= |old(Rest())|)
      ensures r.Some? ==> r.value == old(Rest())[..n] && Rest() == old(Rest())[n..]
      ensures r.None? ==> Rest() == old(Rest())
    {
      if |data| - pos < n {
        return None;
      }
      r := Some(data[pos..pos + n]);
      pos := pos + n;
    }
  }

  /** What was read, and what is left, is what the function says. */
  ghost predicate Agrees<T>(r: Option<T>, rest: seq<byte>, spec: Option<(T, seq<byte>)>) {
    match spec
    case None => r.None?
    case Some((v, rest')) => r == Some(v) && rest == rest'
  }

  method ReadUnsigned(ds: Reader) returns (r: Option<nat>)
    requires ds.Valid()
    modifies ds
    ensures ds.Valid() && Agrees(r, ds.Rest(), Decode(old(ds.Rest())))
  {
    hide Groups, Weight;
    var v: nat, k: nat := 0, 0;
    ghost var all := Groups(ds.Rest(), 0);
    Weights();
    while true
      invariant ds.Valid() && k <= 5 && (k < 5 ==> v < Weight(k)) && all == Joined(v, Weight(k), Groups(ds.Rest(), k))
      decreases |ds.Rest()|
    {
      NextGroup(ds.Rest(), k, v);
      if k == 5 {
        return None;
      }
      var b := ds.Read(1);
      if b.None? {
        return None;
      }
      CutGroup(v, b.value[0] % 128, k);
      v := v + b.value[0] % 128 * Weight(k) % TWO32;
      k := k + 1;
      if b.value[0] < 128 {
        return Some(v);
      }
      TooLong(ds.Rest());
    }
  }

  ghost function Joined(low: nat, weight: nat, spec: Option<(nat, seq<byte>)>): Option<(nat, seq<byte>)> {
    match spec case None => None case Some((high, rest)) => Some((low + weight * high, rest))
  }

  lemma NextGroup(s: seq<byte>, k: nat, v: nat)
    ensures Joined(v, Weight(k), Groups(s, k)) ==
      if s == [] || k >= 5 then None
      else
        var v' := v + s[0] % 128 * Weight(k);
        if s[0] < 128 then Some((v', s[1..])) else Joined(v', Weight(k + 1), Groups(s[1..], k + 1))
  {
    if s != [] && k < 5 && s[0] >= 128 && Groups(s[1..], k + 1).Some? {
      Shifted(Weight(k), s[0] - 128, Groups(s[1..], k + 1).value.0);
    } else if s != [] && k < 5 && s[0] < 128 {
      Shifted(Weight(k), s[0], 0);
    }
  }

  lemma Shifted(w: nat, low: nat, high: nat)
    ensures w * (low + 128 * high) == low * w + 128 * w * high
  {
  }

  lemma TooLong(s: seq<byte>)
    ensures Groups(s, 5).None?
  {
  }

  lemma Weights()
    ensures Weight(0) == 1 && Weight(1) == 128 && Weight(2) == 0x4000 && Weight(3) == 0x20_0000
    ensures Weight(4) == 0x1000_0000 && Weight(5) == 0x8_0000_0000
  {
    assert Weight(3) == 128 * Weight(2);
    assert Weight(4) == 128 * Weight(3);
    assert Weight(5) == 128 * Weight(4);
  }

  /** Only the fifth group is cut, and cutting it cuts the sum. */
  lemma CutGroup(v: nat, b: nat, k: nat)
    requires k < 5 && b < 128 && v < Weight(k)
    ensures v + b * Weight(k) % TWO32 == (v + b * Weight(k)) % TWO32
    ensures k < 4 ==> b * Weight(k) % TWO32 == b * Weight(k) && v + b * Weight(k) < Weight(k + 1)
  {
    hide Weight;
    Weights();
  }

  method UnpackFrom(lt: Order, t: Type, ds: Reader) returns (r: Option<Value>)
    requires ds.Valid()
    modifies ds
    ensures ds.Valid() && Agrees(r, ds.Rest(), Unpack(lt, t, old(ds.Rest())))
    decreases t, 0, 0
  {
    hide Groups, Decode, Separate;
    match t {
      case Raw(n) =>
        var b := ds.Read(n);
        return if b.None? then None else Some(Bytes(b.value));
      case Boolean =>
        var b := ds.Read(1);
        return if b.None? then None else Some(Flag(b.value[0] != 0));
      case Unsigned =>
        var n := ReadUnsigned(ds);
        return if n.None? then None else Some(Number(n.value));
      case Signed =>
        var n := ReadUnsigned(ds);
        return if n.None? then None else Some(Number(Separate(n.value)));
      case Blob =>
        var n := ReadUnsigned(ds);
        if n.None? {
          return None;
        }
        var b := ds.Read(n.value);
        return if b.None? then None else Some(Bytes(b.value));
      case Record(ts) =>
        var l := UnpackFieldsFrom(lt, ts, ds);
        return if l.None? then None else Some(Items(l.value));
      case Container(kind, e) =>
        var n := ReadUnsigned(ds);
        if n.None? || (kind.Array? && n.value != kind.count) {
          return None;
        }
        ghost var items := UnpackAll(lt, e, n.value, ds.Rest());
        if items.Some? { AllPlacedMeaning(lt, t, Nil, items.value.0); }
        var l := UnpackAllFrom(lt, t, n.value, ds);
        return if l.None? then None else Some(Items(l.value));
    }
  }

  /** Where an element that was read goes: to its place in a set or map, else to the end. */
  function Placed(lt: Order, t: Type, l: List<Value>, v: Value): List<Value> {
    if t.Container? && (t.kind.Set? || t.kind.Map?) then Insert(lt, t, l, v) else Append(l, Cons(v, Nil))
  }

  function AllPlaced(lt: Order, t: Type, l: List<Value>, vs: List<Value>): List<Value>
    decreases vs
  {
    if vs.Nil? then l else AllPlaced(lt, t, Placed(lt, t, l, vs.head), vs.tail)
  }

  lemma {:induction false} AllPlacedMeaning(lt: Order, t: Type, l: List<Value>, vs: List<Value>)
    ensures AllPlaced(lt, t, l, vs) ==
      if t.Container? && (t.kind.Set? || t.kind.Map?) then InsertAll(lt, t, l, vs) else Append(l, vs)
    decreases vs
  {
    if vs.Nil? {
      AppendNil(l);
    } else {
      AllPlacedMeaning(lt, t, Placed(lt, t, l, vs.head), vs.tail);
      AppendAssociates(l, Cons(vs.head, Nil), vs.tail);
    }
  }

  lemma {:induction false} AppendAssociates<T>(a: List<T>, b: List<T>, c: List<T>)
    ensures Append(Append(a, b), c) == Append(a, Append(b, c))
  {
    if a.Cons? { AppendAssociates(a.tail, b, c); }
  }

  ghost function PlacedAfter(lt: Order, t: Type, l: List<Value>,
                             spec: Option<(List<Value>, seq<byte>)>): Option<(List<Value>, seq<byte>)> {
    match spec case None => None case Some((vs, rest)) => Some((AllPlaced(lt, t, l, vs), rest))
  }

  method UnpackAllFrom(lt: Order, t: Type, n: nat, ds: Reader) returns (r: Option<List<Value>>)
    requires ds.Valid() && t.Container?
    modifies ds
    ensures ds.Valid() && Agrees(r, ds.Rest(), PlacedAfter(lt, t, Nil, UnpackAll(lt, t.elem, n, old(ds.Rest()))))
    decreases t.elem, 1, n
  {
    hide Unpack, Placed;
    var l: List<Value> := Nil;
    var i := 0;
    ghost var all := PlacedAfter(lt, t, l, UnpackAll(lt, t.elem, n, ds.Rest()));
    while i < n
      invariant ds.Valid() && i <= n
      invariant all == PlacedAfter(lt, t, l, UnpackAll(lt, t.elem, n - i, ds.Rest()))
    {
      var v := UnpackFrom(lt, t.elem, ds);
      if v.None? {
        return None;
      }
      l := Placed(lt, t, l, v.value);
      i := i + 1;
    }
    r := Some(l);
  }

  method UnpackFieldsFrom(lt: Order, ts: List<Type>, ds: Reader) returns (r: Option<List<Value>>)
    requires ds.Valid()
    modifies ds
    ensures ds.Valid() && Agrees(r, ds.Rest(), UnpackFields(lt, ts, old(ds.Rest())))
    decreases ts, 0, 0
  {
    hide Unpack;
    if ts.Nil? {
      return Some(Nil);
    }
    var v := UnpackFrom(lt, ts.head, ds);
    if v.None? {
      return None;
    }
    var l := UnpackFieldsFrom(lt, ts.tail, ds);
    r := if l.None? then None else Some(Cons(v.value, l.value));
  }

  /** Reads back what was packed: pack and unpack over their streams are inverse. */
  method UnpackValue(lt: Order, t: Type, bytes: seq<byte>) returns (r: Option<Value>)
    ensures r == (match Unpack(lt, t, bytes) case None => None case Some((v, _)) => Some(v))
    ensures forall v :: HasType(lt, v, t) && Separable(lt, v, t) && bytes == Pack(lt, v, t) ==> r == Some(v)
  {
    var ds := new Reader(bytes);
    r := UnpackFrom(lt, t, ds);
    forall v | HasType(lt, v, t) && Separable(lt, v, t) && bytes == Pack(lt, v, t) ensures r == Some(v) {
      UnpackPack(lt, v, t, []);
      assert bytes + [] == bytes;
    }
  }
}
