/** The per-drive hysteresis record: a drive letter fixed at construction
    and the free-space percentage seen at the previous tick. */
module Drives {
  import opened Base

  /** The percentage a new drive starts from (`100.0f`). */
  const InitialPercentFree: Percent := Finite(100.0)

  class Drive {
    /** `Letter`: its setter is private and used only by the constructor. */
    const letter: char
    /** `PercentFree`: overwritten by the monitor at every tick. */
    var percentFree: Percent

    constructor (letter: char)
      ensures this.letter == letter
      ensures percentFree == InitialPercentFree
    {
      this.letter := letter;
      percentFree := InitialPercentFree;
    }

    /** The `PercentFree` getter. */
    function PercentFree(): Percent
      reads this
    {
      percentFree
    }

    /** The `PercentFree` setter. */
    method SetPercentFree(p: Percent)
      modifies this
      ensures PercentFree() == p
    {
      percentFree := p;
    }

    /** `Equals(Drive other)`. It reads no mutable field, so its answer
        cannot depend on `percentFree`. */
    predicate Equals(other: Drive?)
    {
      other != null && letter == other.letter
    }

    /** `Equals(object obj)`: `obj as Drive` is null for null and for an
        object of another class. */
    predicate EqualsObject(obj: object?)
    {
      obj is Drive && Equals(obj as Drive)
    }

    /** `GetHashCode`: `0 + 1000000007 * Letter.GetHashCode()` in unchecked
        32-bit arithmetic. */
    function GetHashCode(): (h: Int32)
      ensures (h - 1000000007 * CharHash(letter)) % TwoTo32 == 0
    {
      Wrap32(0 + Wrap32(1000000007 * CharHash(letter)))
    }
  }

  /** `char.GetHashCode()`: the UTF-16 code unit `u` as `u | (u << 16)`,
      an `int`. The two halves do not overlap, so the `|` is a sum. */
  function CharHash(c: char): (h: Int32)
    ensures (h - (c as int % 0x1_0000) * 0x1_0001) % TwoTo32 == 0
  {
    var u := c as int % 0x1_0000;
    Wrap32(u + u * 0x1_0000)
  }

  /** `CharHash` is the bitwise `(int)c | ((int)c << 16)` of .NET's
      `char.GetHashCode()`, where `(int)c` zero-extends the 16-bit code
      unit `w`: read back as an unsigned 32-bit word, the wrapped `int`
      holds exactly the bits of that expression. */
  lemma CharHashIsOr(c: char, w: bv16)
    requires w as int == c as int % 0x1_0000
    ensures var u := w as bv32; var h := CharHash(c);
      (if h < 0 then h + TwoTo32 else h) == (u | (u << 16)) as int
  {
    CharHashUnsigned(c);
    HalvesDisjoint(w);
  }

  /** Read back as unsigned, `CharHash(c)` is the code unit times 0x10001. */
  lemma CharHashUnsigned(c: char)
    ensures var h := CharHash(c);
      (if h < 0 then h + TwoTo32 else h) == (c as int % 0x1_0000) * 0x1_0001
  {
    var n := c as int % 0x1_0000;
    assert CharHash(c) == Wrap32(n * 0x1_0001);
    Wrap32Unsigned(n * 0x1_0001);
  }

  /** The two halves of `u | (u << 16)` do not overlap for a zero-extended
      code unit, so the `|` is `u * 0x10001`. */
  lemma HalvesDisjoint(w: bv16)
    ensures var u := w as bv32; (u | (u << 16)) as int == w as int * 0x1_0001
  {
  }

  /** A value in the unsigned 32-bit range survives `Wrap32` when read back
      as unsigned. */
  lemma Wrap32Unsigned(x: int)
    requires 0 <= x < TwoTo32
    ensures var h := Wrap32(x); (if h < 0 then h + TwoTo32 else h) == x
  {
  }

  /** `operator ==`: the same reference (null == null included) is equal,
      exactly one null side is not, otherwise letter equality. */
  predicate Eq(lhs: Drive?, rhs: Drive?)
  {
    if lhs == rhs then true
    else if lhs == null || rhs == null then false
    else lhs.Equals(rhs)
  }

  /** `operator !=`. */
  predicate Ne(lhs: Drive?, rhs: Drive?)
  {
    !Eq(lhs, rhs)
  }

  /** `Equals` relates exactly the drives with the same letter. */
  lemma EqualsIsLetterEquality(a: Drive, b: Drive?)
    ensures a.Equals(b) <==> b != null && a.letter == b.letter
    ensures !a.Equals(null)
    ensures a.EqualsObject(b) == a.Equals(b)
  {
  }

  /** `Equals` is an equivalence relation on drives. */
  lemma EqualsIsEquivalence(a: Drive, b: Drive, c: Drive)
    ensures a.Equals(a)
    ensures a.Equals(b) ==> b.Equals(a)
    ensures a.Equals(b) && b.Equals(c) ==> a.Equals(c)
  {
  }

  /** `==` and `!=` as a function of the two references and their letters. */
  lemma EqCases(lhs: Drive?, rhs: Drive?)
    ensures lhs == null && rhs == null ==> Eq(lhs, rhs)
    ensures (lhs == null) != (rhs == null) ==> !Eq(lhs, rhs)
    ensures lhs != null && rhs != null ==> (Eq(lhs, rhs) <==> lhs.letter == rhs.letter)
    ensures Ne(lhs, rhs) <==> !Eq(lhs, rhs)
  {
  }

  /** Drives that are `Equals` have the same hash code. */
  lemma EqualDrivesHashAlike(a: Drive, b: Drive)
    requires a.Equals(b)
    ensures a.GetHashCode() == b.GetHashCode()
  {
  }
}
