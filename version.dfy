/**
 * `Version`, `VersionParsingError` and `LiteralVersion` (bioimg_spec/src/rdf/version.rs).
 *
 * A version is text of the form `major.minor.patch`. Parsing splits the text on
 * every `.`, parses each piece as a `usize` with Rust's `str::parse`, stops at the
 * first piece that does not parse, and only then checks that there are three pieces.
 */
module Versions {
  import opened Results

  /** `usize` on a 64-bit target. */
  const USIZE_MAX: nat := 0xFFFF_FFFF_FFFF_FFFF

  type Usize = n: nat | n <= USIZE_MAX

  /** The kinds of `core::num::ParseIntError` that parsing an unsigned integer can give. */
  datatype IntErrorKind = Empty | InvalidDigit | PosOverflow

  datatype Version = Version(major: Usize, minor: Usize, patch: Usize)

  datatype VersionParsingError =
    | WrongNumberOfComponents(componentsFound: nat)
    | ParseIntError(kind: IntErrorKind)
    | UnexpectedVersion(expected: Version, found: Version)

  /** The separator between the components of a version. */
  const SEP: char := '.'

  // ---------------------------------------------------------------------------
  // Decimal digits

  predicate IsDigit(c: char) { '0' <= c <= '9' }

  predicate AllDigits(s: string) { forall i :: 0 <= i < |s| ==> IsDigit(s[i]) }

  function DigitValue(c: char): (d: nat)
    requires IsDigit(c)
    ensures d < 10
  {
    c as int - '0' as int
  }

  function DigitChar(d: nat): (c: char)
    requires d < 10
    ensures IsDigit(c) && DigitValue(c) == d
  {
    ('0' as int + d) as char
  }

  /** The number a string of decimal digits denotes, read most significant digit first. */
  function DigitsValue(s: string): nat
    requires AllDigits(s)
  {
    if s == [] then 0 else DigitsValue(s[..|s| - 1]) * 10 + DigitValue(s[|s| - 1])
  }

  /** The decimal text `format!("{}", n)` writes for an unsigned integer: no sign, no leading zero. */
  function Decimal(n: nat): (s: string)
    ensures |s| >= 1 && AllDigits(s)
    ensures s[0] == '0' ==> n == 0 && s == "0"
  {
    if n < 10 then [DigitChar(n)] else Decimal(n / 10) + [DigitChar(n % 10)]
  }

  /** Decimal(n) denotes n. */
  lemma {:induction false} DecimalValue(n: nat)
    ensures DigitsValue(Decimal(n)) == n
  {
    if n >= 10 {
      DecimalValue(n / 10);
      var s := Decimal(n);
      assert s[..|s| - 1] == Decimal(n / 10);
    }
  }

  // ---------------------------------------------------------------------------
  // `str::parse::<usize>`

  /** One digit of the left-to-right accumulation: the digit check comes before the overflow check. */
  function Step(acc: Usize, c: char): (r: Result<Usize, IntErrorKind>)
    ensures r.Ok? <==> IsDigit(c) && acc * 10 + DigitValue(c) <= USIZE_MAX
    ensures r.Ok? ==> r.value == acc * 10 + DigitValue(c)
    ensures r.Err? ==> r.error == (if IsDigit(c) then PosOverflow else InvalidDigit)
  {
    if !IsDigit(c) then Err(InvalidDigit)
    else if acc * 10 + DigitValue(c) > USIZE_MAX then Err(PosOverflow)
    else Ok(acc * 10 + DigitValue(c))
  }

  /** Folds Step over the digits, stopping at the first error. */
  function Accumulate(acc: Usize, digits: string): (r: Result<Usize, IntErrorKind>)
    ensures r.Ok? ==> AllDigits(digits)
    ensures r.Err? ==> r.error != Empty
    decreases |digits|
  {
    if digits == [] then Ok(acc)
    else
      match Step(acc, digits[0])
      case Err(e) => Err(e)
      case Ok(next) => Accumulate(next, digits[1..])
  }

  lemma {:induction false} AccumulateSnoc(acc: Usize, s: string, c: char)
    ensures Accumulate(acc, s + [c]) ==
            match Accumulate(acc, s)
            case Err(e) => Err(e)
            case Ok(v) => Step(v, c)
    decreases |s|
  {
    if s != [] {
      assert (s + [c])[0] == s[0] && (s + [c])[1..] == s[1..] + [c];
      match Step(acc, s[0])
      case Err(_) =>
      case Ok(next) => AccumulateSnoc(next, s[1..], c);
    } else {
      assert (s + [c])[1..] == [];
    }
  }

  /** On a string of digits the fold overflows exactly when the number it denotes does not fit. */
  lemma {:induction false} AccumulateDigits(s: string)
    requires AllDigits(s)
    ensures Accumulate(0, s) ==
            if DigitsValue(s) <= USIZE_MAX then Ok(DigitsValue(s)) else Err(PosOverflow)
  {
    if s != [] {
      var p, c := s[..|s| - 1], s[|s| - 1];
      assert s == p + [c];
      assert AllDigits(p);
      AccumulateDigits(p);
      AccumulateSnoc(0, p, c);
    }
  }

  /** The length of the run of digits that starts the text. */
  function DigitRun(s: string): (n: nat)
    ensures n <= |s| && AllDigits(s[..n])
    ensures n < |s| ==> !IsDigit(s[n])
  {
    if s == [] || !IsDigit(s[0]) then 0
    else
      var n := 1 + DigitRun(s[1..]);
      assert s[..n] == [s[0]] + s[1..][..n - 1];
      n
  }

  /** Folding over a concatenation folds over the first part, then over the second. */
  lemma {:induction false} AccumulateAppend(acc: Usize, p: string, q: string)
    ensures Accumulate(acc, p + q) ==
            match Accumulate(acc, p)
            case Err(e) => Err(e)
            case Ok(v) => Accumulate(v, q)
    decreases |p|
  {
    if p != [] {
      assert (p + q)[0] == p[0] && (p + q)[1..] == p[1..] + q;
      match Step(acc, p[0])
      case Err(_) =>
      case Ok(next) => AccumulateAppend(next, p[1..], q);
    } else {
      assert p + q == q;
    }
  }

  /** The fold fails with `PosOverflow` when its leading digits already overflow, and otherwise
      with `InvalidDigit` at the first character that is not a digit. */
  lemma AccumulateError(m: string)
    ensures Accumulate(0, m).Err? ==>
              Accumulate(0, m).error ==
              (if DigitsValue(m[..DigitRun(m)]) > USIZE_MAX then PosOverflow else InvalidDigit)
  {
    var k := DigitRun(m);
    var p, q := m[..k], m[k..];
    assert m == p + q;
    AccumulateAppend(0, p, q);
    AccumulateDigits(p);
  }

  /** The text after an optional leading `+`: an unsigned parse accepts one plus sign. */
  function Magnitude(s: string): string
  {
    if |s| > 0 && s[0] == '+' then s[1..] else s
  }

  /** `str::parse::<usize>` (decimal): `Empty` for no text, `InvalidDigit` for a lone sign or any
      non-digit, `PosOverflow` once the value exceeds `usize::MAX`. */
  function ParseUsize(s: string): (r: Result<Usize, IntErrorKind>)
    ensures r == Err(Empty) <==> s == []
    ensures r.Ok? <==> |Magnitude(s)| >= 1 && AllDigits(Magnitude(s)) && DigitsValue(Magnitude(s)) <= USIZE_MAX
    ensures r.Ok? ==> r.value == DigitsValue(Magnitude(s))
    ensures s != [] && r.Err? ==>
              r.error == (if DigitsValue(Magnitude(s)[..DigitRun(Magnitude(s))]) > USIZE_MAX
                          then PosOverflow else InvalidDigit)
  {
    if s == [] then Err(Empty)
    else if s == "+" || s == "-" then Err(InvalidDigit)
    else
      var m := Magnitude(s);
      AccumulateError(m);
      if AllDigits(m) then AccumulateDigits(m); Accumulate(0, m)
      else Accumulate(0, m)
  }

  lemma ParseDecimal(n: Usize)
    ensures ParseUsize(Decimal(n)) == Ok(n)
  {
    DecimalValue(n);
    assert Magnitude(Decimal(n)) == Decimal(n);
  }

  // ---------------------------------------------------------------------------
  // `str::split` and its inverse `join`

  function Occurrences(s: string, c: char): nat
  {
    if s == [] then 0 else (if s[0] == c then 1 else 0) + Occurrences(s[1..], c)
  }

  /** The pieces joined back together with the separator between them. */
  function Join(parts: seq<string>, sep: char): string
    requires |parts| >= 1
  {
    if |parts| == 1 then parts[0] else parts[0] + [sep] + Join(parts[1..], sep)
  }

  /** `s.split(sep)`: the pieces between separators, empty ones included; never no piece. */
  function Split(s: string, sep: char): (parts: seq<string>)
    ensures |parts| == Occurrences(s, sep) + 1
    ensures forall i :: 0 <= i < |parts| ==> sep !in parts[i]
    ensures Join(parts, sep) == s
  {
    if s == [] then [[]]
    else
      var rest := Split(s[1..], sep);
      if s[0] == sep then
        assert Join([[]] + rest, sep) == [sep] + Join(rest, sep) by {
          assert ([[]] + rest)[1..] == rest;
        }
        [[]] + rest
      else
        var parts := [[s[0]] + rest[0]] + rest[1..];
        assert Join(parts, sep) == [s[0]] + Join(rest, sep) by {
          if |rest| > 1 {
            assert parts[1..] == rest[1..];
          }
        }
        parts
  }

  lemma {:induction false} SplitSepFree(a: string, sep: char)
    requires sep !in a
    ensures Split(a, sep) == [a]
  {
    if a != [] {
      SplitSepFree(a[1..], sep);
    }
  }

  lemma {:induction false} SplitAfter(a: string, b: string, sep: char)
    requires sep !in a
    ensures Split(a + [sep] + b, sep) == [a] + Split(b, sep)
  {
    var s := a + [sep] + b;
    if a == [] {
      assert s[1..] == b;
    } else {
      assert s[0] == a[0] && a[0] != sep;
      assert s[1..] == a[1..] + [sep] + b;
      SplitAfter(a[1..], b, sep);
      assert [a[0]] + a[1..] == a;
    }
  }

  /** Splitting undoes joining pieces that do not contain the separator. */
  lemma {:induction false} SplitJoin(parts: seq<string>, sep: char)
    requires |parts| >= 1
    requires forall i :: 0 <= i < |parts| ==> sep !in parts[i]
    ensures Split(Join(parts, sep), sep) == parts
  {
    if |parts| == 1 {
      SplitSepFree(parts[0], sep);
    } else {
      SplitJoin(parts[1..], sep);
      SplitAfter(parts[0], Join(parts[1..], sep), sep);
    }
  }

  // ---------------------------------------------------------------------------
  // `Version::try_from(&str)` and `Version::try_from(String)`

  /** The dot-separated components of a version text. */
  function Components(s: string): seq<string>
  {
    Split(s, SEP)
  }

  predicate AllParse(parts: seq<string>)
  {
    forall i :: 0 <= i < |parts| ==> ParseUsize(parts[i]).Ok?
  }

  /** Component i is the first one that does not parse. */
  predicate FirstFailureAt(parts: seq<string>, i: int)
  {
    && 0 <= i < |parts|
    && ParseUsize(parts[i]).Err?
    && forall j :: 0 <= j < i ==> ParseUsize(parts[j]).Ok?
  }

  /** `.map(|comp| comp.parse::<usize>()).collect::<Result<Vec<_>, _>>()`. */
  function CollectParts(parts: seq<string>): (r: Result<seq<Usize>, IntErrorKind>)
    ensures r.Ok? <==> AllParse(parts)
    ensures r.Ok? ==> |r.value| == |parts|
    ensures r.Ok? ==> forall i :: 0 <= i < |parts| ==> r.value[i] == ParseUsize(parts[i]).value
  {
    if parts == [] then Ok([])
    else
      match ParseUsize(parts[0])
      case Err(e) => Err(e)
      case Ok(v) =>
        match CollectParts(parts[1..])
        case Err(e) =>
          assert !AllParse(parts[1..]);
          Err(e)
        case Ok(vs) => Ok([v] + vs)
  }

  /** The collected error is the error of the first component that fails. */
  lemma {:induction false} CollectFirstFailure(parts: seq<string>, i: int)
    requires FirstFailureAt(parts, i)
    ensures CollectParts(parts) == Err(ParseUsize(parts[i]).error)
  {
    if i > 0 {
      assert FirstFailureAt(parts[1..], i - 1) by {
        forall j | 0 <= j < i - 1 ensures ParseUsize(parts[1..][j]).Ok? {
          assert parts[1..][j] == parts[j + 1];
        }
      }
      CollectFirstFailure(parts[1..], i - 1);
    }
  }

  /** Whenever some component fails to parse, there is a first one that does. */
  lemma {:induction false} FirstFailureExists(parts: seq<string>)
    requires !AllParse(parts)
    ensures exists i :: FirstFailureAt(parts, i)
  {
    if ParseUsize(parts[0]).Err? {
      assert FirstFailureAt(parts, 0);
    } else {
      FirstFailureExists(parts[1..]);
      var i :| FirstFailureAt(parts[1..], i);
      assert FirstFailureAt(parts, i + 1) by {
        forall j | 0 <= j < i + 1 ensures ParseUsize(parts[j]).Ok? {
          if j > 0 { assert parts[j] == parts[1..][j - 1]; }
        }
      }
    }
  }

  /** `TryFrom<&str> for Version`. `TryFrom<String>` hands its text to this same conversion. */
  function Parse(s: string): (r: Result<Version, VersionParsingError>)
    ensures r.Ok? <==> |Components(s)| == 3 && AllParse(Components(s))
    ensures r.Ok? ==> r.value == Version(ParseUsize(Components(s)[0]).value,
                                         ParseUsize(Components(s)[1]).value,
                                         ParseUsize(Components(s)[2]).value)
    ensures AllParse(Components(s)) && |Components(s)| != 3 ==>
              r == Err(WrongNumberOfComponents(|Components(s)|))
    ensures !AllParse(Components(s)) ==> r.Err? && r.error.ParseIntError?
  {
    match CollectParts(Components(s))
    case Err(e) => Err(ParseIntError(e))
    case Ok(parts) =>
      if |parts| != 3 then Err(WrongNumberOfComponents(|parts|))
      else Ok(Version(parts[0], parts[1], parts[2]))
  }

  /** A component that fails to parse is reported before the component count is looked at. */
  lemma ParseFirstFailure(s: string, i: int)
    requires FirstFailureAt(Components(s), i)
    ensures Parse(s) == Err(ParseIntError(ParseUsize(Components(s)[i]).error))
  {
    CollectFirstFailure(Components(s), i);
  }

  /** The number of components reported is one more than the number of dots. */
  lemma ParseWrongCount(s: string)
    requires AllParse(Components(s)) && Occurrences(s, SEP) != 2
    ensures Parse(s) == Err(WrongNumberOfComponents(Occurrences(s, SEP) + 1))
  {
  }

  // ---------------------------------------------------------------------------
  // `Into<String> for Version` and `Display for Version`

  /** `format!("{}.{}.{}", major, minor, patch)`; `Display` writes the same text. */
  function Format(v: Version): (s: string)
    ensures Components(s) == [Decimal(v.major), Decimal(v.minor), Decimal(v.patch)]
    ensures Occurrences(s, SEP) == 2
  {
    var parts := [Decimal(v.major), Decimal(v.minor), Decimal(v.patch)];
    assert forall i :: 0 <= i < 3 ==> SEP !in parts[i] by {
      forall i | 0 <= i < 3 ensures SEP !in parts[i] {
        assert forall k :: 0 <= k < |parts[i]| ==> IsDigit(parts[i][k]);
      }
    }
    assert Join(parts, SEP) == parts[0] + "." + parts[1] + "." + parts[2] by {
      assert parts[1..][1..] == [parts[2]];
      assert Join(parts[1..], SEP) == parts[1] + [SEP] + parts[2];
      assert Join(parts, SEP) == parts[0] + [SEP] + (parts[1] + [SEP] + parts[2]);
    }
    SplitJoin(parts, SEP);
    parts[0] + "." + parts[1] + "." + parts[2]
  }

  /** Round trip: parsing the text of a version gives back that version. */
  lemma {:induction false} ParseFormat(v: Version)
    ensures Parse(Format(v)) == Ok(v)
  {
    var parts := Components(Format(v));
    ParseDecimal(v.major);
    ParseDecimal(v.minor);
    ParseDecimal(v.patch);
    assert AllParse(parts);
  }

  /** The accepted case of the source's own test. */
  lemma ParseExampleAccepted()
    ensures Parse("1.2.3") == Ok(Version(1, 2, 3))
  {
    ParseFormat(Version(1, 2, 3));
    assert Format(Version(1, 2, 3)) == "1.2.3";
  }

  /** The rejected cases of the source's own test: too few components, then a bad component. */
  lemma ParseExamplesRejected()
    ensures Parse("1.2") == Err(WrongNumberOfComponents(2))
    ensures Parse("1.2.bla") == Err(ParseIntError(InvalidDigit))
    ensures Parse("") == Err(ParseIntError(Empty))
  {
    SplitJoin(["1", "2"], SEP);
    assert Join(["1", "2"], SEP) == "1.2";
    assert ParseUsize("1") == Ok(1) && ParseUsize("2") == Ok(2);
    assert AllParse(["1", "2"]);
    SplitJoin(["1", "2", "bla"], SEP);
    assert Join(["1", "2", "bla"], SEP) == "1.2.bla";
    assert ParseUsize("bla") == Err(InvalidDigit);
    ParseFirstFailure("1.2.bla", 2);
    assert Components("") == [""];
    ParseFirstFailure("", 0);
  }

  /** Parsing is not injective: a leading zero is accepted and lost. */
  lemma ParseLeadingZero()
    ensures Parse("01.2.3") == Parse("1.2.3")
  {
    SplitJoin(["01", "2", "3"], SEP);
    assert Join(["01", "2", "3"], SEP) == "01.2.3";
    assert ParseUsize("01") == Ok(1) && ParseUsize("2") == Ok(2) && ParseUsize("3") == Ok(3);
    assert AllParse(["01", "2", "3"]);
    ParseExampleAccepted();
  }

  // ---------------------------------------------------------------------------
  // `LiteralVersion<MAJOR, MINOR, PATCH>`

  /** The const parameters MAJOR, MINOR and PATCH of a `LiteralVersion` type; the Rust value is a unit. */
  datatype LiteralVersion = LiteralVersion(major: Usize, minor: Usize, patch: Usize)

  /** `Into<Version> for LiteralVersion`. */
  function LiteralInto(lit: LiteralVersion): (v: Version)
    ensures v.major == lit.major && v.minor == lit.minor && v.patch == lit.patch
  {
    Version(lit.major, lit.minor, lit.patch)
  }

  /** `TryFrom<Version> for LiteralVersion`: accepts the pinned version only. */
  function LiteralTryFrom(lit: LiteralVersion, v: Version): (r: Result<LiteralVersion, VersionParsingError>)
    ensures r.Ok? <==> v.major == lit.major && v.minor == lit.minor && v.patch == lit.patch
    ensures r.Ok? ==> r.value == lit
    ensures r.Err? ==> r.error == UnexpectedVersion(LiteralInto(lit), v)
  {
    if v.major == lit.major && v.minor == lit.minor && v.patch == lit.patch then Ok(lit)
    else Err(UnexpectedVersion(LiteralInto(lit), v))
  }

  /** A literal version accepts its own version, and exactly that one. */
  lemma LiteralRoundTrip(lit: LiteralVersion, v: Version)
    ensures LiteralTryFrom(lit, LiteralInto(lit)) == Ok(lit)
    ensures LiteralTryFrom(lit, v).Ok? <==> v == LiteralInto(lit)
  {
  }

  /** A pinned version read from text: the text must parse, and then must be the pinned one. */
  lemma LiteralFromText(lit: LiteralVersion)
    ensures Parse(Format(LiteralInto(lit))).Ok?
    ensures LiteralTryFrom(lit, Parse(Format(LiteralInto(lit))).value) == Ok(lit)
  {
    ParseFormat(LiteralInto(lit));
  }
}
