/** The symbol table: label name to 16-bit address, with the pass-dependent rules for
    defining and resolving a label. */
module Symbols {
  import opened Errors
  import Opcodes

  type Table = map<string, int>

  /** A label records the load address converted to an unsigned 16-bit value. */
  function Address(org: int): (a: int)
    ensures 0 <= a < 65536 && (0 <= org < 65536 ==> a == org)
  {
    org % 65536
  }

  /** label_already_defined */
  predicate AlreadyDefined(t: Table, name: string) { name in t }

  /** label_has_valid_name: a label must not be spelled like a mnemonic. */
  predicate HasValidName(name: string) { !Opcodes.IsMnemonic(name) }

  /** create_label: nothing happens on the second pass; on the first, a name already defined
      or spelled like a mnemonic is fatal, and otherwise the name gets the load address. */
  function Define(t: Table, pass: nat, org: int, name: string): (r: Result<Table>)
    ensures pass != 0 ==> r == Ok(t)
    ensures pass == 0 && name in t ==> r == Fail(DuplicateSymbol)
    ensures pass == 0 && name !in t && !HasValidName(name) ==> r == Fail(ReservedName)
    ensures pass == 0 && name !in t && HasValidName(name) ==>
              r.Ok? && r.value.Keys == t.Keys + {name} && r.value[name] == Address(org)
    ensures r.Ok? ==> forall n | n in t :: n in r.value && r.value[n] == t[n]
  {
    if pass != 0 then Ok(t)
    else if AlreadyDefined(t, name) then Fail(DuplicateSymbol)
    else if !HasValidName(name) then Fail(ReservedName)
    else Ok(t[name := Address(org)])
  }

  /** What a reference to a label evaluates to. */
  datatype Resolution =
    | Resolved(addr: int)  // the recorded address
    | Deferred             // missing on the first pass: placeholder 0, second pass needed
    | Undefined            // missing on the second pass: fatal

  /** The lookup in label_value. */
  function Resolve(t: Table, pass: nat, name: string): (r: Resolution)
    ensures r.Resolved? <==> name in t
    ensures r.Resolved? ==> r.addr == t[name]
    ensures r.Deferred? <==> name !in t && pass == 0
    ensures r.Undefined? <==> name !in t && pass != 0
  {
    if name in t then Resolved(t[name]) else if pass == 0 then Deferred else Undefined
  }

  /** A label defined on the first pass resolves, on either pass, to the address it was
      defined at. */
  lemma DefineThenResolve(t: Table, org: int, name: string, pass: nat)
    requires Define(t, 0, org, name).Ok?
    ensures Resolve(Define(t, 0, org, name).value, pass, name) == Resolved(Address(org))
  {
  }

  /** Defining a label never changes the address of any other label. */
  lemma DefineKeepsOthers(t: Table, pass: nat, org: int, name: string, other: string)
    requires Define(t, pass, org, name).Ok? && other != name
    ensures Resolve(Define(t, pass, org, name).value, pass, other) == Resolve(t, pass, other)
  {
  }

  /** One table contains another when it has every name of the other at the same address. */
  predicate SubTable(small: Table, big: Table) {
    forall n | n in small :: n in big && big[n] == small[n]
  }

  /** A lookup that resolves in a table resolves alike, on any pass, in every table that
      contains it. */
  lemma ResolveInLargerTable(small: Table, big: Table, p: nat, q: nat, name: string)
    requires SubTable(small, big) && Resolve(small, p, name).Resolved?
    ensures Resolve(big, q, name) == Resolve(small, p, name)
  {
  }
}
