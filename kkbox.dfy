/** The KKBox feature helpers: the age bucketizer and the ISRC country-code
    prefix. */
module KkBox {
  import opened Py

  /** A value of the age column: missing (None or NaN) or a number. */
  datatype Age = Null | Num(value: real)

  /** `_bucketize`: "" for a missing age or one outside [1, 95], a decade
      digit "1" .. "6" up to 60, and "7" above 60. */
  function Bucketize(age: Age): (r: string)
    ensures r in {"", "1", "2", "3", "4", "5", "6", "7"}
    ensures r == "" <==> age.Null? || age.value < 1.0 || age.value > 95.0
  {
    match age
    case Null => ""
    case Num(a) =>
      if a < 1.0 || a > 95.0 then ""
      else if a <= 10.0 then "1"
      else if a <= 20.0 then "2"
      else if a <= 30.0 then "3"
      else if a <= 40.0 then "4"
      else if a <= 50.0 then "5"
      else if a <= 60.0 then "6"
      else "7"
  }

  /** The digit character for 1 .. 9. */
  function Digit(d: nat): char
    requires d <= 9
  {
    "0123456789"[d]
  }

  /** The buckets are the decades: an age in [1, 10] gets "1", one in
      (10(d - 1), 10d] gets digit d for d = 2 .. 6, one in (60, 95] gets "7",
      and a missing or out-of-range age gets "". */
  lemma BucketizeDecades(a: real, d: nat)
    ensures 1.0 <= a <= 10.0 ==> Bucketize(Num(a)) == [Digit(1)]
    ensures 2 <= d <= 6 && 10.0 * (d - 1) as real < a <= 10.0 * d as real ==> Bucketize(Num(a)) == [Digit(d)]
    ensures 60.0 < a <= 95.0 ==> Bucketize(Num(a)) == [Digit(7)]
    ensures a < 1.0 || a > 95.0 ==> Bucketize(Num(a)) == ""
    ensures Bucketize(Null) == ""
  {
  }

  /** Over [1, 95] the bucket never decreases with the age. */
  lemma BucketizeMonotone(a: real, b: real)
    requires 1.0 <= a <= b <= 95.0
    ensures |Bucketize(Num(a))| == |Bucketize(Num(b))| == 1
    ensures Bucketize(Num(a))[0] <= Bucketize(Num(b))[0]
  {
  }

  /** `extract_country_code`: the first two characters of a present ISRC
      (fewer when it is shorter), and "" for a missing one. */
  function CountryCode(isrc: Option<string>): (r: string)
    ensures isrc.None? ==> r == ""
    ensures isrc.Some? ==> |r| == Min(2, |isrc.value|) && r == isrc.value[..|r|]
  {
    match isrc
    case None => ""
    case Some(s) => Slice(s, 0, 2)
  }
}
