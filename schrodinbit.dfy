/**
 * Machina's Schrodinbit: a boolean flag that becomes false as soon as its
 * value is observed.
 */
module SchrodinbitFlag {

  class Schrodinbit {
    var flag: bool

    /** A new flag holds false. */
    constructor ()
      ensures !flag
    {
      flag := false;
    }

    /** Reading the flag (the conversion to bool) yields it and clears it. */
    method Observe() returns (r: bool)
      modifies this
      ensures r == old(flag)
      ensures !flag
    {
      r := flag;
      flag := false;
    }

    /** Assignment stores the value and yields it. */
    method Assign(value: bool) returns (r: bool)
      modifies this
      ensures flag == value
      ensures r == value
    {
      flag := value;
      r := value;
    }

    /** Applies a sequence of operations, collecting what each read saw. */
    method Apply(ops: seq<Op>) returns (seen: seq<bool>)
      modifies this
      ensures seen == Observations(old(flag), ops)
      ensures flag == FinalFlag(old(flag), ops)
    {
      seen := [];
      var i := 0;
      while i < |ops|
        invariant 0 <= i <= |ops|
        invariant seen + Observations(flag, ops[i..]) == Observations(old(flag), ops)
        invariant FinalFlag(flag, ops[i..]) == FinalFlag(old(flag), ops)
      {
        assert ops[i..] == [ops[i]] + ops[i + 1..];
        match ops[i] {
          case Read =>
            var r := Observe();
            seen := seen + [r];
          case Write(v) =>
            var _ := Assign(v);
        }
        i := i + 1;
      }
    }
  }

  /** An operation on the flag: a read or an assignment. */
  datatype Op = Read | Write(value: bool)

  function CountReads(ops: seq<Op>): nat
  {
    if ops == [] then 0 else (if ops[0].Read? then 1 else 0) + CountReads(ops[1..])
  }

  /** The values returned by the reads among `ops`, starting from `flag`. */
  function Observations(flag: bool, ops: seq<Op>): (seen: seq<bool>)
    ensures |seen| == CountReads(ops)
    decreases |ops|
  {
    if ops == [] then []
    else match ops[0]
      case Read => [flag] + Observations(false, ops[1..])
      case Write(v) => Observations(v, ops[1..])
  }

  function FinalFlag(flag: bool, ops: seq<Op>): bool
    decreases |ops|
  {
    if ops == [] then flag
    else match ops[0]
      case Read => FinalFlag(false, ops[1..])
      case Write(v) => FinalFlag(v, ops[1..])
  }

  function Reads(n: nat): (ops: seq<Op>)
    ensures |ops| == n && forall i :: 0 <= i < n ==> ops[i] == Read
  {
    if n == 0 then [] else [Read] + Reads(n - 1)
  }

  /** Without a write in between, every read after the first sees false. */
  lemma {:induction false} ReadsAfterFirstSeeFalse(flag: bool, n: nat)
    requires n >= 1
    ensures Observations(flag, Reads(n)) == [flag] + seq(n - 1, _ => false)
  {
    if n > 1 {
      ReadsAfterFirstSeeFalse(false, n - 1);
      assert Reads(n)[1..] == Reads(n - 1);
    } else {
      assert Reads(1)[1..] == [];
    }
  }

  /**
   * After assigning true, exactly the next read returns true; the reads
   * after it return false. The starting value does not matter.
   */
  lemma SetThenReadOnce(flag: bool, n: nat)
    requires n >= 1
    ensures Observations(flag, [Write(true)] + Reads(n)) == [true] + seq(n - 1, _ => false)
  {
    assert ([Write(true)] + Reads(n))[1..] == Reads(n);
    ReadsAfterFirstSeeFalse(true, n);
  }

  /** A fresh flag reads false on every read. */
  lemma FreshFlagReadsFalse(n: nat)
    ensures Observations(false, Reads(n)) == seq(n, _ => false)
  {
    if n >= 1 {
      ReadsAfterFirstSeeFalse(false, n);
    }
  }
}
