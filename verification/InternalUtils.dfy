/**
 * Flag words to enum sets, and the guard checks every record uses to
 * validate itself (InternalUtils.kt).
 *
 * An enum class of flags is modelled by the sequence of its constants in
 * declaration order (`enumConstants`) and the function giving each
 * constant's bit pattern (`asInt`).
 */
module InternalUtils {
  import opened Errors

  /** The constants of `consts` that share a set bit with `bits`: what `bitsToSet` returns. */
  function FlagSet<T(==)>(bits: bv32, consts: seq<T>, bitsOf: T -> bv32): set<T> {
    set f | f in consts && bits & bitsOf(f) != 0
  }

  /**
   * `bitsToSet(bits, tClass)`: starts from an empty set and adds, in
   * declaration order, every constant whose bits meet `bits`.
   */
  method BitsToSet<T(==)>(bits: bv32, consts: seq<T>, bitsOf: T -> bv32) returns (res: set<T>)
    ensures res == FlagSet(bits, consts, bitsOf)
    ensures forall f :: f in res <==> f in consts && bits & bitsOf(f) != 0
  {
    res := {};
    for i := 0 to |consts|
      invariant res == FlagSet(bits, consts[..i], bitsOf)
    {
      var it := consts[i];
      FlagSetSnoc(bits, consts[..i], it, bitsOf);
      assert consts[..i + 1] == consts[..i] + [it];
      if bits & bitsOf(it) != 0 {
        res := res + {it};
      }
    }
    assert consts[..|consts|] == consts;
  }

  lemma FlagSetSnoc<T>(bits: bv32, consts: seq<T>, x: T, bitsOf: T -> bv32)
    ensures FlagSet(bits, consts + [x], bitsOf)
         == FlagSet(bits, consts, bitsOf) + (if bits & bitsOf(x) != 0 then {x} else {})
  {
  }

  /** Every declared flag is a single bit. */
  predicate SingleBits<T>(consts: seq<T>, bitsOf: T -> bv32) {
    forall i :: 0 <= i < |consts| ==> IsSingleBit(bitsOf(consts[i]))
  }

  predicate IsSingleBit(b: bv32) {
    b != 0 && b & (b - 1) == 0
  }

  /** The flag whose pattern is `b` is in the set decoded from `bits`. */
  predicate Meets(bits: bv32, b: bv32) {
    bits & b != 0
  }

  /** The bits of the constants of `consts` that are in `s`, OR-ed together (the inverse fold). */
  function SetToBits<T(==)>(consts: seq<T>, s: set<T>, bitsOf: T -> bv32): bv32 {
    if consts == [] then 0
    else (if consts[0] in s then bitsOf(consts[0]) else 0) | SetToBits(consts[1..], s, bitsOf)
  }

  /** All declared bits of an enum class. */
  function DeclaredBits<T>(consts: seq<T>, bitsOf: T -> bv32): bv32 {
    if consts == [] then 0 else bitsOf(consts[0]) | DeclaredBits(consts[1..], bitsOf)
  }

  /** A word with no bit in common with any flag decodes to the empty set; in particular 0 does. */
  lemma {:induction false} NoDeclaredBitEmpty<T>(bits: bv32, consts: seq<T>, bitsOf: T -> bv32)
    ensures bits & DeclaredBits(consts, bitsOf) == 0 ==> FlagSet(bits, consts, bitsOf) == {}
  {
    if consts != [] && bits & DeclaredBits(consts, bitsOf) == 0 {
      NoDeclaredBitEmpty(bits, consts[1..], bitsOf);
      forall f | f in consts
        ensures bits & bitsOf(f) == 0
      {
        if f != consts[0] {
          assert f in consts[1..];
          assert f !in FlagSet(bits, consts[1..], bitsOf);
        }
      }
    }
  }

  /** Conversely, an empty decoded set means `bits` shares no bit with any flag. */
  lemma {:induction false} EmptyFlagSetNoDeclaredBit<T>(bits: bv32, consts: seq<T>, bitsOf: T -> bv32)
    ensures FlagSet(bits, consts, bitsOf) == {} ==> bits & DeclaredBits(consts, bitsOf) == 0
  {
    if consts != [] && FlagSet(bits, consts, bitsOf) == {} {
      assert consts[0] in consts;
      assert consts[0] !in FlagSet(bits, consts, bitsOf);
      forall f | f in FlagSet(bits, consts[1..], bitsOf)
        ensures f in FlagSet(bits, consts, bitsOf)
      {
        assert f in consts;
      }
      EmptyFlagSetNoDeclaredBit(bits, consts[1..], bitsOf);
      Distribute(bits, bitsOf(consts[0]), DeclaredBits(consts[1..], bitsOf));
    }
  }

  /** `bitsToSet(bits)` is empty exactly when `bits` has no declared bit set. */
  lemma {:induction false} FlagSetEmptyIff<T>(bits: bv32, consts: seq<T>, bitsOf: T -> bv32)
    ensures FlagSet(bits, consts, bitsOf) == {} ==> bits & DeclaredBits(consts, bitsOf) == 0
    ensures bits & DeclaredBits(consts, bitsOf) == 0 ==> FlagSet(bits, consts, bitsOf) == {}
  {
    EmptyFlagSetNoDeclaredBit(bits, consts, bitsOf);
    NoDeclaredBitEmpty(bits, consts, bitsOf);
  }

  /**
   * With single-bit flags, folding the decoded set back into a word gives
   * `bits` with every undeclared bit cleared: unknown bits are dropped.
   */
  lemma SetToBitsOfFlagSet<T>(bits: bv32, consts: seq<T>, bitsOf: T -> bv32)
    requires SingleBits(consts, bitsOf)
    ensures SetToBits(consts, FlagSet(bits, consts, bitsOf), bitsOf) == bits & DeclaredBits(consts, bitsOf)
  {
    var S := FlagSet(bits, consts, bitsOf);
    forall f | f in consts
      ensures InAsBits(bits, S, bitsOf, f)
    {
      var i :| 0 <= i < |consts| && consts[i] == f;
      SingleBitMeet(bits, bitsOf(consts[i]));
    }
    FoldMembers(bits, consts, S, bitsOf);
  }

  /** A single bit either lies in a word or not. */
  lemma SingleBitMeet(bits: bv32, b: bv32)
    requires IsSingleBit(b)
    ensures bits & b == 0 || bits & b == b
  {
  }

  /** The flag `f` contributes to a fold of `S` exactly the bits it shares with `bits`. */
  predicate InAsBits<T(==)>(bits: bv32, S: set<T>, bitsOf: T -> bv32, f: T) {
    (if f in S then bitsOf(f) else 0) == bits & bitsOf(f)
  }

  /** Folding a set that holds exactly the flags lying in `bits` gives the declared bits of `bits`. */
  lemma {:induction false} FoldMembers<T>(bits: bv32, t: seq<T>, S: set<T>, bitsOf: T -> bv32)
    requires forall f | f in t :: InAsBits(bits, S, bitsOf, f)
    ensures SetToBits(t, S, bitsOf) == bits & DeclaredBits(t, bitsOf)
  {
    if t != [] {
      assert InAsBits(bits, S, bitsOf, t[0]);
      FoldMembers(bits, t[1..], S, bitsOf);
      Distribute(bits, bitsOf(t[0]), DeclaredBits(t[1..], bitsOf));
    }
  }

  lemma Distribute(bits: bv32, b: bv32, d: bv32)
    ensures (bits & b) | (bits & d) == bits & (b | d)
  {
  }

  /** For words without undeclared bits the round trip is exact. */
  lemma FlagSetRoundTrip<T>(bits: bv32, consts: seq<T>, bitsOf: T -> bv32)
    requires SingleBits(consts, bitsOf)
    requires bits & !DeclaredBits(consts, bitsOf) == 0
    ensures SetToBits(consts, FlagSet(bits, consts, bitsOf), bitsOf) == bits
  {
    SetToBitsOfFlagSet(bits, consts, bitsOf);
  }

  /** `bitsToSet` is monotone in the bitwise order. */
  lemma FlagSetMonotone<T>(bits: bv32, bits': bv32, consts: seq<T>, bitsOf: T -> bv32)
    requires bits & !bits' == 0
    ensures FlagSet(bits, consts, bitsOf) <= FlagSet(bits', consts, bitsOf)
  {
    forall f | f in FlagSet(bits, consts, bitsOf)
      ensures f in FlagSet(bits', consts, bitsOf)
    {
      BitMeetMonotone(bits, bits', bitsOf(f));
    }
  }

  lemma BitMeetMonotone(bits: bv32, bits': bv32, b: bv32)
    requires bits & !bits' == 0
    ensures bits & b != 0 ==> bits' & b != 0
  {
  }

  /** `verify(message) { condition }`: throws `DDSInvalidException` exactly when the condition is false. */
  function Verify(reason: Invalid, condition: bool): (r: Outcome)
    ensures r.Fail? <==> !condition
    ensures r.Fail? ==> r.error == DDSInvalid(reason)
  {
    if !condition then Fail(DDSInvalid(reason)) else Pass
  }

  /** `verifyNot(message) { condition }`: throws exactly when the condition is true. */
  function VerifyNot(reason: Invalid, condition: bool): (r: Outcome)
    ensures r.Fail? <==> condition
    ensures r.Fail? ==> r.error == DDSInvalid(reason)
  {
    if condition then Fail(DDSInvalid(reason)) else Pass
  }
}
