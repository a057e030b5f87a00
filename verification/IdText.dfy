/** Point ids as text: the segment key of an id, and the id a request path names. */
module IdText {
  import opened Types

  predicate IsDigit(c: char) {
    '0' <= c <= '9'
  }

  function DigitValue(c: char): (d: nat)
    requires IsDigit(c)
  {
    c as int - '0' as int
  }

  function DigitChar(d: nat): char
    requires d < 10
  {
    ('0' as int + d) as char
  }

  predicate AllDigits(s: string) {
    forall i :: 0 <= i < |s| ==> IsDigit(s[i])
  }

  /** The number a digit string denotes, of any size. */
  function DecimalValue(s: string): nat
    requires AllDigits(s)
  {
    if s == [] then 0 else 10 * DecimalValue(s[..|s| - 1]) + DigitValue(s[|s| - 1])
  }

  /** Decimal text without leading zeros, as an integer prints. */
  function Decimal(n: nat): string {
    if n < 10 then [DigitChar(n)] else Decimal(n / 10) + [DigitChar(n % 10)]
  }

  /** Unsigned 64-bit parsing: an optional '+', then digits, within range. */
  function ParseU64(s: string): Option<U64> {
    var digits := if |s| > 1 && s[0] == '+' then s[1..] else s;
    if digits != [] && AllDigits(digits) && DecimalValue(digits) < U64_LIMIT
    then Some(DecimalValue(digits))
    else None
  }

  function IntoString(id: PointId): string {
    match id
    case Id(n) => Decimal(n)
    case Uuid(text) => text
  }

  /** The id a request path segment stands for. */
  function ParsePointId(text: string): PointId {
    match ParseU64(text)
    case Some(n) => Id(n)
    case None => Uuid(text)
  }

  /** Ids whose text does not collide with the text of a number. */
  predicate Canonical(id: PointId) {
    id.Uuid? ==> ParseU64(id.text).None?
  }

  /** Digits are read in base ten, from left to right. */
  lemma DecimalReading(s: string, c: char)
    requires AllDigits(s) && '0' <= c <= '9'
    ensures DecimalValue("") == 0
    ensures AllDigits(s + [c]) && DecimalValue(s + [c]) == 10 * DecimalValue(s) + (c as int - '0' as int)
  {
    assert (s + [c])[..|s|] == s;
  }

  /** The text of a number reads back as that number, and has no leading zero. */
  lemma {:induction false} DecimalRoundTrip(n: nat)
    ensures Decimal(n) != [] && AllDigits(Decimal(n))
    ensures DecimalValue(Decimal(n)) == n
    ensures Decimal(n)[0] == '0' ==> n == 0 && Decimal(n) == "0"
  {
    if n < 10 {
      assert Decimal(n)[..0] == [];
    } else {
      DecimalRoundTrip(n / 10);
      assert Decimal(n)[..|Decimal(n)| - 1] == Decimal(n / 10);
    }
  }

  /** A request path of digits, perhaps after a '+', names the number they denote, if that has 64 bits; */
  lemma DigitsNameANumber(text: string, digits: string)
    requires digits != "" && (forall i :: 0 <= i < |digits| ==> '0' <= digits[i] <= '9')
    requires text == digits || text == "+" + digits
    ensures if DecimalValue(digits) < 18446744073709551616
            then ParsePointId(text) == Id(DecimalValue(digits)) else ParsePointId(text) == Uuid(text)
  {
    if text == "+" + digits {
      assert text[1..] == digits;
    }
  }

  /** any other names itself. */
  lemma OthersNameThemselves(text: string)
    requires text == "" || exists i :: 0 <= i < |text| && !('0' <= text[i] <= '9')
    requires |text| < 2 || text[0] != '+' || exists i :: 0 < i < |text| && !('0' <= text[i] <= '9')
    ensures ParsePointId(text) == Uuid(text)
  {
    if |text| > 1 && text[0] == '+' {
      var i :| 0 < i < |text| && !('0' <= text[i] <= '9');
      assert text[1..][i - 1] == text[i];
    }
  }

  /** Reading an id's own text gives the id back for canonical ids and for no others. */
  lemma TextRoundTrip(id: PointId)
    ensures ParsePointId(IntoString(id)) == id <==> Canonical(id)
  {
    if id.Id? {
      DecimalRoundTrip(id.number);
      assert IsDigit(Decimal(id.number)[0]);
    }
  }

  /** Distinct canonical ids have distinct segment keys. */
  lemma KeysAreInjective(a: PointId, b: PointId)
    requires Canonical(a) && Canonical(b)
    requires IntoString(a) == IntoString(b)
    ensures a == b
  {
    TextRoundTrip(a);
    TextRoundTrip(b);
  }

  /** Without canonicity the law fails: a number and its own text share a key. */
  lemma NumberAndItsTextCollide(n: U64)
    ensures Uuid(Decimal(n)) != Id(n) && IntoString(Uuid(Decimal(n))) == IntoString(Id(n))
    ensures !Canonical(Uuid(Decimal(n)))
  {
    TextRoundTrip(Id(n));
  }
}
