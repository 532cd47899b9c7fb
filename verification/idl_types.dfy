/** Decoded Candid type tables. A type reference is a primitive type's code (negative) or an index
  * into the table; table entries are constructed types.
  */
module IdlTypes {

  const PRIM_NULL: int := -1
  const PRIM_NAT: int := -3
  const PRIM_INT: int := -4
  const PRIM_TEXT: int := -15
  const PRIM_RESERVED: int := -16
  const PRIM_EMPTY: int := -17
  const PRIM_LOWEST: int := -17
  const CON_OPT: int := -18
  const CON_VEC: int := -19
  const CON_RECORD: int := -20
  const CON_VARIANT: int := -21
  const CON_FUNC: int := -22
  const CON_SERVICE: int := -23
  const REF_PRINCIPAL: int := -24

  datatype Field = Field(tag: nat, t: int)

  type Name = seq<nat>

  datatype Entry = Entry(name: Name, t: int)

  /** Codes that are reserved for constructed types to come. */
  type FutureCode = code: int | code < REF_PRINCIPAL witness REF_PRINCIPAL - 1

  datatype Con =
    | Opt(t: int)
    | Vec(t: int)
    | Record(fields: seq<Field>)
    | Variant(fields: seq<Field>)
    | Func(ins: seq<int>, outs: seq<int>, annotations: seq<nat>)
    | Service(entries: seq<Entry>)
    | Future(code: FutureCode)

  type Table = seq<Con>

  function Opcode(c: Con): int {
    match c
    case Opt(_) => CON_OPT
    case Vec(_) => CON_VEC
    case Record(_) => CON_RECORD
    case Variant(_) => CON_VARIANT
    case Func(_, _, _) => CON_FUNC
    case Service(_) => CON_SERVICE
    case Future(code) => code
  }

  predicate IsPrimitive(t: int) {
    t < 0 && (t >= PRIM_LOWEST || t == REF_PRINCIPAL)
  }

  /** What the header parser accepts as a type argument. */
  predicate IsRef(t: int, size: nat) {
    IsPrimitive(t) || 0 <= t < size
  }

  predicate ConInTable(c: Con, size: nat) {
    match c
    case Opt(t) => IsRef(t, size)
    case Vec(t) => IsRef(t, size)
    case Record(fields) => forall k :: 0 <= k < |fields| ==> IsRef(fields[k].t, size)
    case Variant(fields) => forall k :: 0 <= k < |fields| ==> IsRef(fields[k].t, size)
    case Func(ins, outs, _) =>
      && (forall k :: 0 <= k < |ins| ==> IsRef(ins[k], size))
      && (forall k :: 0 <= k < |outs| ==> IsRef(outs[k], size))
    case Service(entries) => forall k :: 0 <= k < |entries| ==> IsRef(entries[k].t, size)
    case Future(_) => true
  }

  predicate WellFormed(table: Table) {
    forall k :: 0 <= k < |table| ==> ConInTable(table[k], |table|)
  }

  /** The code at the head of a type: of the table entry, or the primitive type itself. */
  function Unfold(table: Table, t: int): (u: int)
    requires IsRef(t, |table|)
  {
    if t >= 0 then Opcode(table[t]) else t
  }

  predicate IsNullOptReserved(table: Table, t: int)
    requires IsRef(t, |table|)
  {
    if IsPrimitive(t) then t == PRIM_NULL || t == PRIM_RESERVED else Opcode(table[t]) == CON_OPT
  }

  /** Method names are compared byte by byte, a proper prefix being less. */
  function Compare(a: Name, b: Name): (c: int)
    ensures c == 0 <==> a == b
  {
    if a == [] && b == [] then 0
    else if a == [] then -1
    else if b == [] then 1
    else if a[0] != b[0] then a[0] - b[0]
    else
      assert a == [a[0]] + a[1..] && b == [b[0]] + b[1..];
      Compare(a[1..], b[1..])
  }

  /** Up to `k` the names agree; there the first one ends or has the lesser byte. */
  ghost predicate DiffersAt(a: Name, b: Name, k: nat) {
    && k <= |a| && k < |b| && a[..k] == b[..k] && (k == |a| || a[k] < b[k])
  }

  lemma {:induction false} CompareFirst(a: Name, b: Name)
    ensures Compare(a, b) < 0 <==> exists k: nat :: DiffersAt(a, b, k)
  {
    if a == [] || b == [] || a[0] != b[0] {
      assert Compare(a, b) < 0 ==> DiffersAt(a, b, 0);
      if k: nat :| DiffersAt(a, b, k) {
        assert k > 0 ==> a[..k][0] == b[..k][0];
      }
    } else {
      CompareFirst(a[1..], b[1..]);
      if k: nat :| DiffersAt(a, b, k) {
        assert k > 0;
        assert a[1..][..k - 1] == a[..k][1..] && b[1..][..k - 1] == b[..k][1..];
        assert DiffersAt(a[1..], b[1..], k - 1);
      }
      if k: nat :| DiffersAt(a[1..], b[1..], k) {
        assert a[..k + 1] == [a[0]] + a[1..][..k] && b[..k + 1] == [b[0]] + b[1..][..k];
        assert DiffersAt(a, b, k + 1);
      }
    }
  }

  lemma CompareTransitive(a: Name, b: Name, c: Name)
    requires Compare(a, b) < 0 && Compare(b, c) < 0
    ensures Compare(a, c) < 0
  {
  }

  lemma CompareAntisymmetric(a: Name, b: Name)
    ensures Compare(a, b) < 0 <==> Compare(b, a) > 0
  {
  }
}
