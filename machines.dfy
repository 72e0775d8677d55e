/** The whole state of an assembly run as one value: the globals of the original (read
    position, line number, pass, second-pass flag, load address, object buffer, labels). */
module Machines {
  import opened Errors
  import opened Scanner
  import opened Symbols

  /** Size of the object buffer. */
  const ObjectSize: nat := 65536

  /** `out` is object[0 .. PC), so PC is |out|; `org` is the address labels refer to. */
  datatype Machine = Machine(
    src: Cursor,
    linenr: int,
    pass: nat,
    needSecondPass: bool,
    org: int,
    out: seq<bv8>,
    labels: Table)

  /** Labels hold unsigned 16-bit addresses. */
  predicate AddressesInRange(t: Table) {
    forall n | n in t :: 0 <= t[n] < 65536
  }

  predicate WellFormed(m: Machine) {
    Scanner.Wf(m.src) && |m.out| <= ObjectSize && AddressesInRange(m.labels)
  }

  /** What reading an operand may change: the read position, which only moves forward, and
      the second-pass flag, which only a first-pass lookup of a missing label sets. */
  predicate Scans(m: Machine, r: Machine) {
    r == m.(src := r.src, needSecondPass := r.needSecondPass) && Forward(m.src, r.src)
    && (m.needSecondPass ==> r.needSecondPass)
    && (m.pass != 0 ==> r.needSecondPass == m.needSecondPass)
  }

  /** What any step of a pass may change: besides the above, bytes are only appended, the
      load address and line number move, and labels are only added, and only on the first
      pass. */
  predicate Evolves(m: Machine, r: Machine) {
    WellFormed(r) && r.src.text == m.src.text && m.src.at <= r.src.at && r.pass == m.pass
    && m.out <= r.out && SubTable(m.labels, r.labels)
    && (m.pass != 0 ==> r.labels == m.labels && r.needSecondPass == m.needSecondPass)
    && (m.needSecondPass ==> r.needSecondPass)
  }

  /** What writing data may change: the read position, the second-pass flag and the bytes,
      with the load address moving by the number of bytes appended. */
  predicate Writes(m: Machine, r: Machine) {
    Evolves(m, r) && r.labels == m.labels && r.linenr == m.linenr
    && r.org == m.org + |r.out| - |m.out|
  }

  lemma WritesTransitive(a: Machine, b: Machine, c: Machine)
    requires Writes(a, b) && Writes(b, c)
    ensures Writes(a, c)
  {
    EvolvesTransitive(a, b, c);
  }

  lemma ScansWrites(m: Machine, r: Machine)
    requires WellFormed(m) && Scans(m, r)
    ensures Writes(m, r)
  {
  }

  /** Defining a label is a step of a pass. */
  lemma DefineEvolves(m: Machine, src: Cursor, name: string)
    requires WellFormed(m) && Forward(m.src, src)
    requires Define(m.labels, m.pass, m.org, name).Ok?
    ensures Evolves(m, m.(src := src, labels := Define(m.labels, m.pass, m.org, name).value))
  {
  }

  lemma ScansEvolves(m: Machine, r: Machine)
    requires WellFormed(m) && Scans(m, r)
    ensures Evolves(m, r)
  {
  }

  lemma EvolvesTransitive(a: Machine, b: Machine, c: Machine)
    requires Evolves(a, b) && Evolves(b, c)
    ensures Evolves(a, c)
  {
  }

  /** gen_code(): the byte goes to object[PC]; PC and the load address advance by one. A
      write past the end of the buffer stops the run. */
  function Emit(m: Machine, b: bv8): (r: Result<Machine>)
    requires WellFormed(m)
    ensures r.Ok? <==> |m.out| < ObjectSize
    ensures r.Ok? ==> r.value == m.(out := m.out + [b], org := m.org + 1) && WellFormed(r.value)
    ensures r.Fail? ==> r.err == ObjectOverflow
  {
    if |m.out| >= ObjectSize then Fail(ObjectOverflow)
    else Ok(m.(out := m.out + [b], org := m.org + 1))
  }

  lemma EmitAllWrites(m: Machine, bs: seq<bv8>)
    requires WellFormed(m) && EmitAll(m, bs).Ok?
    ensures Writes(m, EmitAll(m, bs).value)
  {
  }

  /** gen_code() for each byte in turn. */
  function EmitAll(m: Machine, bs: seq<bv8>): (r: Result<Machine>)
    requires WellFormed(m)
    ensures r.Ok? <==> |m.out| + |bs| <= ObjectSize
    ensures r.Ok? ==> r.value == m.(out := m.out + bs, org := m.org + |bs|) && WellFormed(r.value)
    ensures r.Fail? ==> r.err == ObjectOverflow
    decreases |bs|
  {
    if bs == [] then
      assert m.out + bs == m.out;
      Ok(m)
    else
      var m1 :- Emit(m, bs[0]);
      var r := EmitAll(m1, bs[1..]);
      assert m.out + [bs[0]] + bs[1..] == m.out + bs;
      r
  }

  /** Writing two or three bytes is writing each in turn. */
  lemma EmitAllTwo(m: Machine, a: bv8, b: bv8)
    requires WellFormed(m)
    ensures EmitAll(m, [a, b]) == (var m1 :- Emit(m, a); Emit(m1, b))
  {
  }

  lemma EmitAllThree(m: Machine, a: bv8, b: bv8, c: bv8)
    requires WellFormed(m)
    ensures EmitAll(m, [a, b, c]) == (var m1 :- Emit(m, a); var m2 :- Emit(m1, b); Emit(m2, c))
  {
  }

  /** `n` zero bytes, the placeholder DS reserves. */
  function Zeros(n: nat): (z: seq<bv8>)
    ensures |z| == n && forall i | 0 <= i < n :: z[i] == 0
  {
    seq(n, _ => 0)
  }
}
