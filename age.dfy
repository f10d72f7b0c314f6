/**
 * `Age` and `StagingAge` (bioimg_gui/src/widgets/age_widget.rs).
 *
 * An age is an unsigned byte no greater than 120. The only way to make one is the
 * fallible conversion from `u8`, which rejects anything above 120 as `TooOld`; a
 * `StagingAge` holds the byte the user is editing and re-validates it on every draw.
 */
module Ages {
  import opened Results

  type U8 = n: int | 0 <= n < 256

  /** The oldest age accepted. */
  const MAX_AGE: U8 := 120

  /** `AgeParsingError`: there is no lower-bound error, since a `u8` cannot be negative. */
  datatype AgeParsingError = TooOld

  /** `struct Age(u8)`; the only constructor is `Age::try_from`, so every age is at most 120. */
  datatype AgeValue = Age(years: U8)

  type Age = a: AgeValue | a.years <= MAX_AGE witness Age(0)

  /** `TryFrom<u8> for Age`. */
  function AgeTryFrom(v: U8): (r: Result<Age, AgeParsingError>)
    ensures r.Ok? <==> v <= MAX_AGE
    ensures r.Ok? ==> r.value.years == v
  {
    if v > MAX_AGE then Err(TooOld) else Ok(Age(v))
  }

  /** `From<Age> for usize`: the byte, widened without change. */
  function AgeToUsize(a: Age): (n: nat)
    ensures n <= MAX_AGE as nat
    ensures AgeTryFrom(n as U8) == Ok(a)
  {
    a.years as nat
  }

  /** The bounds of the conversion: 0 and 120 are ages, 121 is too old, and an accepted age
      converts back to the byte it came from. */
  lemma AgeBounds(v: U8)
    ensures AgeTryFrom(0).Ok? && AgeTryFrom(MAX_AGE).Ok?
    ensures AgeTryFrom(MAX_AGE + 1) == Err(TooOld)
    ensures AgeTryFrom(v).Ok? ==> AgeToUsize(AgeTryFrom(v).value) == v
  {
  }

  /** `StagingAge(u8)`: the byte under edit. */
  class StagingAge {
    var raw: U8

    /** `Default`: the byte 0, which is a valid age. */
    constructor ()
      ensures raw == 0 && AgeTryFrom(raw).Ok?
    {
      raw := 0;
    }

    /** `draw_and_update`: the edit control writes `edited` into the byte, which is then
        validated and returned; a rejected byte stays as it is, neither clamped nor reset. */
    method DrawAndUpdate(edited: U8) returns (r: Result<Age, AgeParsingError>)
      modifies this
      ensures raw == edited
      ensures r == AgeTryFrom(edited)
      ensures r.Ok? <==> edited <= MAX_AGE
    {
      raw := edited;
      r := AgeTryFrom(raw);
    }
  }
}
