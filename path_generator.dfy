/** The short-path generator: a slice of a fixed 62-character alphabet whose
    start and length come from two random draws, here taken as parameters. */
module PathGenerator {
  import opened Models

  /** Upper- and lower-case letters interleaved, then the ten digits:
      "AaBbCc...YyZz0123456789", written in three pieces so that the verifier
      can reason about single characters of it. */
  const SafeUrlChars: string := LettersAToM + LettersNToZ + Digits
  const LettersAToM: string := "AaBbCcDdEeFfGgHhIiJjKkLlMm"
  const LettersNToZ: string := "NnOoPpQqRrSsTtUuVvWwXxYyZz"
  const Digits: string := "0123456789"

  /** Where a letter or digit sits in SafeUrlChars, computed from its code. */
  function AlphabetIndex(c: char): int {
    if 'A' <= c <= 'Z' then 2 * (c as int - 'A' as int)
    else if 'a' <= c <= 'z' then 2 * (c as int - 'a' as int) + 1
    else c as int - '0' as int + 52
  }

  /** p is the run of the alphabet that begins at position start. */
  predicate IsSliceAt(p: string, start: int) {
    0 <= start <= |SafeUrlChars| - |p| && SafeUrlChars[start..start + |p|] == p
  }

  /** p is a contiguous run of the alphabet. */
  ghost predicate IsAlphabetSlice(p: string) {
    exists start :: IsSliceAt(p, start)
  }

  /** A path the generator can produce: 2 to 5 letters and digits, cut from the alphabet. */
  ghost predicate IsGeneratedShape(p: string) {
    && 2 <= |p| <= 5
    && (forall k | 0 <= k < |p| :: IsAsciiLetterOrDigit(p[k]))
    && IsAlphabetSlice(p)
  }

  lemma PiecesLayout()
    ensures forall i | 0 <= i < 26 :: IsAsciiLetterOrDigit(LettersAToM[i]) && AlphabetIndex(LettersAToM[i]) == i
    ensures forall i | 0 <= i < 26 :: IsAsciiLetterOrDigit(LettersNToZ[i]) && AlphabetIndex(LettersNToZ[i]) == i + 26
    ensures forall i | 0 <= i < 10 :: IsAsciiLetterOrDigit(Digits[i]) && AlphabetIndex(Digits[i]) == i + 52
  {
  }

  /** Every character of the alphabet is a letter or digit, and AlphabetIndex finds it. */
  lemma SafeUrlCharsLayout()
    ensures |SafeUrlChars| == 62
    ensures forall i | 0 <= i < 62 :: IsAsciiLetterOrDigit(SafeUrlChars[i]) && AlphabetIndex(SafeUrlChars[i]) == i
  {
    PiecesLayout();
  }

  /** The alphabet has 62 pairwise distinct characters ... */
  lemma SafeUrlCharsDistinct()
    ensures |SafeUrlChars| == 62
    ensures forall i, j | 0 <= i < j < |SafeUrlChars| :: SafeUrlChars[i] != SafeUrlChars[j]
  {
    SafeUrlCharsLayout();
  }

  /** Distinct letters and digits sit at distinct positions. */
  lemma AlphabetIndexInjective(c: char, d: char)
    requires IsAsciiLetterOrDigit(c) && IsAsciiLetterOrDigit(d)
    requires AlphabetIndex(c) == AlphabetIndex(d)
    ensures c == d
  {
  }

  /** ... and they are exactly the ASCII letters and digits. */
  lemma SafeUrlCharsCoverLettersAndDigits(c: char)
    ensures IsAsciiLetterOrDigit(c) <==> c in SafeUrlChars
  {
    SafeUrlCharsLayout();
    if IsAsciiLetterOrDigit(c) {
      var i := AlphabetIndex(c);
      assert 0 <= i < 62;
      AlphabetIndexInjective(SafeUrlChars[i], c);
    }
  }

  /** `safeUrlChars.Substring(start, length)`, where `start` is drawn from
      `Random.Next(0, 62)` and `length` from `Random.Next(2, 6)` (both upper
      bounds exclusive). Substring throws when the slice runs past the end. */
  function GenerateShortUrlPath(start: int, length: int): (r: Result<string>)
    requires 0 <= start < |SafeUrlChars| && 2 <= length < 6
    ensures r.Err? <==> start + length > |SafeUrlChars|
    ensures r.Err? ==> r.failure == ArgumentOutOfRangeException
    ensures r.Ok? ==> |r.value| == length && IsSliceAt(r.value, start) && IsGeneratedShape(r.value)
  {
    if start + length <= |SafeUrlChars| then
      SafeUrlCharsLayout();
      assert IsSliceAt(SafeUrlChars[start..start + length], start);
      Ok(SafeUrlChars[start..start + length])
    else
      Err(ArgumentOutOfRangeException)
  }

  /** The draws are independent, so a start near the end of the alphabet makes
      the generator throw: start 61 with length 2 asks for characters 61 and 62. */
  lemma GeneratorThrowsNearAlphabetEnd()
    ensures GenerateShortUrlPath(61, 2) == Err(ArgumentOutOfRangeException)
    ensures forall start, length | 0 <= start < 62 && 2 <= length < 6 && start > 62 - length ::
              GenerateShortUrlPath(start, length).Err?
  {
  }

  /** The generator as intended: the start is drawn from `Random.Next(0, 62 - length + 1)`
      once the length is known, so the slice always fits and no draw throws. */
  function GenerateShortUrlPathInRange(start: int, length: int): (p: string)
    requires 2 <= length < 6 && 0 <= start <= |SafeUrlChars| - length
    ensures |p| == length && IsSliceAt(p, start) && IsGeneratedShape(p)
  {
    SafeUrlCharsLayout();
    assert IsSliceAt(SafeUrlChars[start..start + length], start);
    SafeUrlChars[start..start + length]
  }

  /** p is what the corrected generator returns for some pair of draws. */
  ghost predicate IsCorrectedGeneratorOutput(p: string) {
    exists start, length | 2 <= length < 6 && 0 <= start <= |SafeUrlChars| - length ::
      p == GenerateShortUrlPathInRange(start, length)
  }

  /** Where the source's generator does not throw it agrees with the corrected one. */
  lemma GeneratorAgreesWhereInRange(start: int, length: int)
    requires 0 <= start < |SafeUrlChars| && 2 <= length < 6
    ensures start + length <= |SafeUrlChars| ==>
              GenerateShortUrlPath(start, length) == Ok(GenerateShortUrlPathInRange(start, length))
  {
  }
}
