/** Numbers on the benchmark's command line: digits, underscores, and an optional size suffix. */
module NumberParser {
  import opened Types
  import opened IdText

  // ---------- what a text denotes ----------

  function Pow(base: nat, e: nat): nat {
    if e == 0 then 1 else base * Pow(base, e - 1)
  }

  /** The power of a suffix letter, in the order k, M, B, T. */
  function Power(c: char): Option<nat> {
    match c
    case 'k' => Some(1)
    case 'M' => Some(2)
    case 'B' => Some(3)
    case 'T' => Some(4)
    case _ => None
  }

  /** Nothing, a letter for a power of 1000, or a letter and `i` for a power of 1024, whatever follows the `i`. */
  function Multiplier(tail: string): Option<nat> {
    if tail == "" then Some(1)
    else if Power(tail[0]).None? then None
    else if |tail| == 1 then Some(Pow(1000, Power(tail[0]).value))
    else if tail[1] == 'i' then Some(Pow(1024, Power(tail[0]).value))
    else None
  }

  predicate DigitsAndUnderscores(body: string) {
    forall i :: 0 <= i < |body| ==> IsDigit(body[i]) || body[i] == '_'
  }

  function WithoutUnderscores(body: string): (digits: string)
    requires DigitsAndUnderscores(body)
    ensures AllDigits(digits)
  {
    if body == "" then ""
    else
      var before := WithoutUnderscores(body[..|body| - 1]);
      if body[|body| - 1] == '_' then before else before + [body[|body| - 1]]
  }

  /** The number a body stands for: its digits, with the underscores left out. */
  function ValueOf(body: string): nat
    requires DigitsAndUnderscores(body)
  {
    DecimalValue(WithoutUnderscores(body))
  }

  /** The text is a number: a body that starts with a digit, and a suffix. */
  ghost predicate Denotes(text: string, body: string, tail: string, v: nat) {
    && text == body + tail
    && body != "" && IsDigit(body[0]) && DigitsAndUnderscores(body)
    && Multiplier(tail).Some?
    && v == ValueOf(body) * Multiplier(tail).value
  }

  /**
   Spelled out: digits and underscores, the first a digit, and then nothing, a letter that stands for a power of
   1000, or that letter with an `i` and anything after it, which stands for the power of 1024.
   */
  lemma DenotesExactly(text: string, body: string, tail: string, v: nat)
    ensures Denotes(text, body, tail, v) <==>
            && text == body + tail && body != "" && '0' <= body[0] <= '9'
            && (forall i :: 0 <= i < |body| ==> '0' <= body[i] <= '9' || body[i] == '_')
            && (|| (tail == "" && v == ValueOf(body))
                || (tail == "k" && v == ValueOf(body) * 1_000)
                || (tail == "M" && v == ValueOf(body) * 1_000_000)
                || (tail == "B" && v == ValueOf(body) * 1_000_000_000)
                || (tail == "T" && v == ValueOf(body) * 1_000_000_000_000)
                || (|tail| >= 2 && tail[..2] == "ki" && v == ValueOf(body) * 1_024)
                || (|tail| >= 2 && tail[..2] == "Mi" && v == ValueOf(body) * 1_048_576)
                || (|tail| >= 2 && tail[..2] == "Bi" && v == ValueOf(body) * 1_073_741_824)
                || (|tail| >= 2 && tail[..2] == "Ti" && v == ValueOf(body) * 1_099_511_627_776))
  {
    PowersOf(1000);
    PowersOf(1024);
    if |tail| == 1 {
      assert tail == [tail[0]];
    } else if |tail| >= 2 {
      assert tail[..2] == [tail[0], tail[1]];
    }
  }

  lemma PowersOf(base: nat)
    ensures Pow(base, 1) == base && Pow(base, 2) == base * base && Pow(base, 3) == base * (base * base)
    ensures Pow(base, 4) == base * (base * (base * base))
  {
    assert Pow(base, 0) == 1 && Pow(base, 1) == base && Pow(base, 2) == base * Pow(base, 1);
    assert Pow(base, 3) == base * Pow(base, 2);
  }

  // ---------- the same, as a function of the text ----------

  /** How far the body of a text reaches. */
  function BodyLength(text: string): (n: nat)
    ensures n <= |text| && DigitsAndUnderscores(text[..n])
    ensures n < |text| ==> !IsDigit(text[n]) && text[n] != '_'
  {
    if text == "" || !(IsDigit(text[0]) || text[0] == '_') then 0
    else
      var n := 1 + BodyLength(text[1..]);
      assert text[..n] == [text[0]] + text[1..][..n - 1];
      n
  }

  function Read(text: string): Option<nat> {
    var n := BodyLength(text);
    if text == "" || !IsDigit(text[0]) || Multiplier(text[n..]).None? then None
    else Some(ValueOf(text[..n]) * Multiplier(text[n..]).value)
  }

  lemma InBody(text: string, n: nat, k: nat)
    requires k < n <= |text| && DigitsAndUnderscores(text[..n])
    ensures IsDigit(text[k]) || text[k] == '_'
  {
    assert text[..n][k] == text[k];
  }

  lemma BodyLengthIs(text: string, n: nat)
    requires n <= |text| && DigitsAndUnderscores(text[..n])
    requires n < |text| ==> !IsDigit(text[n]) && text[n] != '_'
    ensures BodyLength(text) == n
  {
    forall k | 0 <= k < n
      ensures IsDigit(text[k]) || text[k] == '_'
    {
      InBody(text, n, k);
    }
    forall k | 0 <= k < BodyLength(text)
      ensures IsDigit(text[k]) || text[k] == '_'
    {
      InBody(text, BodyLength(text), k);
    }
  }

  lemma ReadIsDenoted(text: string)
    requires Read(text).Some?
    ensures Denotes(text, text[..BodyLength(text)], text[BodyLength(text)..], Read(text).value)
  {
    var n := BodyLength(text);
    assert text == text[..n] + text[n..];
  }

  lemma DenotedIsRead(text: string, body: string, tail: string, v: nat)
    requires Denotes(text, body, tail, v)
    ensures Read(text) == Some(v)
  {
    assert text[..|body|] == body && text[|body|..] == tail;
    BodyLengthIs(text, |body|);
  }

  /** The function finds exactly what the text denotes. */
  lemma ReadExactly(text: string, v: nat)
    ensures Read(text) == Some(v) <==> exists body, tail :: Denotes(text, body, tail, v)
  {
    if Read(text) == Some(v) {
      ReadIsDenoted(text);
    }
    if exists body, tail :: Denotes(text, body, tail, v) {
      var body, tail :| Denotes(text, body, tail, v);
      DenotedIsRead(text, body, tail, v);
    }
  }

  lemma {:induction false} WithoutUnderscoresSplit(a: string, b: string)
    requires DigitsAndUnderscores(a) && DigitsAndUnderscores(b)
    ensures WithoutUnderscores(a + b) == WithoutUnderscores(a) + WithoutUnderscores(b)
  {
    if b == "" {
      assert a + b == a;
    } else {
      WithoutUnderscoresSplit(a, b[..|b| - 1]);
      assert (a + b)[..|a + b| - 1] == a + b[..|b| - 1];
    }
  }

  lemma SameValueWithUnderscore(a: string, b: string)
    requires DigitsAndUnderscores(a) && DigitsAndUnderscores(b)
    ensures DigitsAndUnderscores(a + "_" + b) && DigitsAndUnderscores(a + b)
    ensures ValueOf(a + "_" + b) == ValueOf(a + b)
  {
    WithoutUnderscoresSplit(a, b);
    WithoutUnderscoresSplit(a, "_");
    WithoutUnderscoresSplit(a + "_", b);
    assert "_"[..0] == "";
  }

  /** An underscore anywhere after the first digit changes nothing. */
  lemma UnderscoresAreIgnored(a: string, b: string, tail: string, v: nat)
    requires a != "" && DigitsAndUnderscores(a) && DigitsAndUnderscores(b)
    ensures Denotes(a + "_" + b + tail, a + "_" + b, tail, v) <==> Denotes(a + b + tail, a + b, tail, v)
  {
    SameValueWithUnderscore(a, b);
    assert (a + "_" + b)[0] == a[0] == (a + b)[0];
  }

  /** One more character of a body is one more digit, or nothing. */
  lemma ValueOfMore(body: string, c: char)
    requires DigitsAndUnderscores(body) && (IsDigit(c) || c == '_')
    ensures DigitsAndUnderscores(body + [c]) && ValueOf("") == 0
    ensures ValueOf(body + [c]) ==
            if c == '_' then ValueOf(body) else ValueOf(body) * 10 + (c as int - '0' as int)
  {
    assert (body + [c])[..|body|] == body;
    var digits := WithoutUnderscores(body);
    assert (digits + [c])[..|digits|] == digits;
  }

  /** Reading on never makes the number smaller. */
  lemma {:induction false} ValueOfGrows(body: string, n: nat)
    requires n <= |body| && DigitsAndUnderscores(body)
    ensures ValueOf(body[..n]) <= ValueOf(body)
    decreases |body|
  {
    if n == |body| {
      TakeAll(body);
    } else {
      var init := body[..|body| - 1];
      assert body == init + [body[|body| - 1]] && body[..n] == init[..n];
      ValueOfGrows(init, n);
      ValueOfMore(init, body[|body| - 1]);
    }
  }

  lemma {:induction false} PowPositive(base: nat, e: nat)
    requires base >= 1
    ensures Pow(base, e) >= 1
  {
    if e > 0 {
      PowPositive(base, e - 1);
      TimesMonotone(1, base, Pow(base, e - 1));
    }
  }

  lemma MultiplierPositive(tail: string)
    requires Multiplier(tail).Some?
    ensures Multiplier(tail).value >= 1
  {
    if tail != "" {
      PowPositive(1000, Power(tail[0]).value);
      PowPositive(1024, Power(tail[0]).value);
    }
  }

  /** Once the part read so far is out of range, so is the number, if the text is one. */
  lemma OutOfRangeStays(text: string, n: nat, limit: nat)
    requires n <= BodyLength(text) && DigitsAndUnderscores(text[..n]) && ValueOf(text[..n]) >= limit
    ensures Read(text).Some? ==> Read(text).value >= limit
  {
    var body := text[..BodyLength(text)];
    assert text[..n] == body[..n];
    ValueOfGrows(body, n);
    if Read(text).Some? {
      MultiplierPositive(text[|body|..]);
      TimesMonotone(1, Multiplier(text[|body|..]).value, ValueOf(body));
    }
  }

  // ---------- the parser ----------

  function CheckedMul(a: U64, b: nat): Option<U64> {
    if a * b < U64_LIMIT then Some(a * b) else None
  }

  function CheckedAdd(a: U64, b: nat): Option<U64> {
    if a + b < U64_LIMIT then Some(a + b) else None
  }

  function InRange(v: Option<nat>, limit: nat): Option<nat> {
    if v.Some? && v.value < limit then v else None
  }

  /** The loop has read the first `i` characters, all of them body, into `result`. */
  predicate ReadSoFar(n: string, i: nat, result: nat) {
    1 <= i <= BodyLength(n) && IsDigit(n[0]) && DigitsAndUnderscores(n[..i]) && result == ValueOf(n[..i])
  }

  lemma ReadFirst(n: string)
    requires n != "" && IsDigit(n[0])
    ensures ReadSoFar(n, 1, DigitValue(n[0]))
  {
    TakeMore(n, 0);
    ValueOfMore(n[..0], n[0]);
  }

  lemma ReadNext(n: string, i: nat, result: nat)
    requires i < |n| && ReadSoFar(n, i, result)
    ensures IsDigit(n[i]) ==> ReadSoFar(n, i + 1, result * 10 + DigitValue(n[i]))
    ensures n[i] == '_' ==> ReadSoFar(n, i + 1, result)
    ensures !IsDigit(n[i]) && n[i] != '_' ==> BodyLength(n) == i
  {
    if IsDigit(n[i]) || n[i] == '_' {
      assert i < BodyLength(n);
      TakeMore(n, i);
      ValueOfMore(n[..i], n[i]);
    } else {
      BodyLengthIs(n, i);
    }
  }

  /** Overflow-checked at every step, and yet nothing that fits is refused. */
  method ParseNumberImpl(n: string) returns (r: Option<U64>)
    ensures r == InRange(Read(n), U64_LIMIT)
  {
    if n == "" || !IsDigit(n[0]) {
      return None;
    }
    var result: U64 := DigitValue(n[0]);
    var i := 1;
    ReadFirst(n);
    while i < |n|
      invariant ReadSoFar(n, i, result)
    {
      var c := n[i];
      ReadNext(n, i, result);
      i := i + 1;
      if IsDigit(c) {
        if result * 10 + DigitValue(c) >= U64_LIMIT {
          OutOfRangeStays(n, i, U64_LIMIT);
        }
        var scaled := CheckedMul(result, 10);
        if scaled.None? {
          return None;
        }
        var sum := CheckedAdd(scaled.value, DigitValue(c));
        if sum.None? {
          return None;
        }
        result := sum.value;
      } else if c != '_' {
        var power := Power(c);
        if power.None? {
          return None;
        }
        var multiplier;
        if i == |n| {
          multiplier := Pow(1000, power.value);
        } else if n[i] == 'i' {
          multiplier := Pow(1024, power.value);
        } else {
          return None;
        }
        assert Multiplier(n[i - 1..]) == Some(multiplier);
        return CheckedMul(result, multiplier);
      }
    }
    TakeAll(n);
    BodyLengthIs(n, |n|);
    r := Some(result);
  }

  /** The parser for arguments, which must fit the machine's word as well. */
  method ParseNumber(n: string, usizeLimit: nat) returns (r: Result<nat>)
    requires usizeLimit <= U64_LIMIT
    ensures r.Ok? <==> exists body, tail, v: nat :: Denotes(n, body, tail, v) && v < usizeLimit
    ensures r.Ok? ==> exists body, tail :: Denotes(n, body, tail, r.value)
    ensures r.Ok? ==> forall body, tail, v: nat :: Denotes(n, body, tail, v) ==> v == r.value
  {
    var parsed := ParseNumberImpl(n);
    r := if parsed.Some? && parsed.value < usizeLimit then Ok(parsed.value) else Err(BadInput);
    forall body, tail, v: nat | Denotes(n, body, tail, v)
      ensures Read(n) == Some(v)
    {
      ReadExactly(n, v);
    }
    if r.Ok? {
      ReadExactly(n, r.value);
      ghost var body, tail :| Denotes(n, body, tail, r.value);
      assert Denotes(n, body, tail, r.value) && r.value < usizeLimit;
    }
  }
}
