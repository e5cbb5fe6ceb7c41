/**
 * The parse buffer of the resip utility library: a cursor over the text of a
 * SIP message, with the scanning primitives a parameter parser calls.
 *
 * The buffer's own implementation is not part of this model. Each primitive
 * is given the behaviour that the parameter parser relies on, first as a pure
 * function of (text, cursor) and then as a method of the ParseBuffer class
 * proved against that function. A primitive that fails raises a parse error
 * in the library; here it returns the error, which records the cursor
 * position at which it was raised, and leaves the cursor there.
 */
module Rutil {
  import opened Decimal

  const MaxUInt32: nat := 0xFFFF_FFFF

  /** An unsigned 32-bit value. */
  type UInt32 = x: nat | x <= 0xFFFF_FFFF

  datatype ErrorKind =
    | UnexpectedEof
    | ExpectedChar(expected: char)
    | ExpectedDigit
    | Overflow

  /** A parse error: what went wrong, and the cursor position where it did. */
  datatype ParseError = ParseError(kind: ErrorKind, at: nat)

  datatype Result<+T> = Success(value: T) | Failure(error: ParseError)

  datatype Outcome = Pass | Fail(error: ParseError)

  /** The characters the buffer's whitespace skipping passes over. */
  predicate IsWhitespace(c: char) {
    c == ' ' || c == '\t' || c == '\r' || c == '\n'
  }

  /** The characters that end a parameter (the buffer's ParamTerm set). */
  const ParamTerm: string := ";?"

  // ---------------------------------------------------------------------
  // The primitives as functions of the text and the cursor
  // ---------------------------------------------------------------------

  /** Where skipping whitespace from pos stops: the first non-whitespace character or the end. */
  function SkipWhitespaceFrom(buf: string, pos: nat): (p: nat)
    requires pos <= |buf|
    ensures pos <= p <= |buf|
    ensures forall i :: pos <= i < p ==> IsWhitespace(buf[i])
    ensures p == |buf| || !IsWhitespace(buf[p])
    decreases |buf| - pos
  {
    if pos == |buf| || !IsWhitespace(buf[pos]) then pos else SkipWhitespaceFrom(buf, pos + 1)
  }

  /** Where skipping to one of the characters cs stops: the first such character or the end. */
  function SkipToOneOfFrom(buf: string, pos: nat, cs: string): (p: nat)
    requires pos <= |buf|
    ensures pos <= p <= |buf|
    ensures forall i :: pos <= i < p ==> buf[i] !in cs
    ensures p == |buf| || buf[p] in cs
    decreases |buf| - pos
  {
    if pos == |buf| || buf[pos] in cs then pos else SkipToOneOfFrom(buf, pos + 1, cs)
  }

  /** The end of the run of digits that starts at pos. */
  function DigitsEnd(buf: string, pos: nat): (p: nat)
    requires pos <= |buf|
    ensures pos <= p <= |buf|
    ensures forall i :: pos <= i < p ==> IsDigit(buf[i])
    ensures p == |buf| || !IsDigit(buf[p])
    decreases |buf| - pos
  {
    if pos == |buf| || !IsDigit(buf[pos]) then pos else DigitsEnd(buf, pos + 1)
  }

  /** Consuming the character c at pos: an error at the end of the text or on any other character. */
  function SkipCharAt(buf: string, pos: nat, c: char): (r: Result<nat>)
    requires pos <= |buf|
    ensures r.Success? <==> pos < |buf| && buf[pos] == c
    ensures r.Success? ==> r.value == pos + 1
    ensures r.Failure? ==> r.error.at == pos
    ensures r.Failure? ==> r.error.kind == (if pos == |buf| then UnexpectedEof else ExpectedChar(c))
  {
    if pos == |buf| then Failure(ParseError(UnexpectedEof, pos))
    else if buf[pos] != c then Failure(ParseError(ExpectedChar(c), pos))
    else Success(pos + 1)
  }

  /** Insisting that input remains at pos; the cursor does not move. */
  function NotEofAt(buf: string, pos: nat): (r: Result<nat>)
    requires pos <= |buf|
    ensures r.Success? <==> pos < |buf|
    ensures r.Success? ==> r.value == pos
    ensures r.Failure? ==> r.error == ParseError(UnexpectedEof, pos)
  {
    if pos == |buf| then Failure(ParseError(UnexpectedEof, pos)) else Success(pos)
  }

  /**
   * Reading an unsigned 32-bit decimal at pos: the longest run of digits,
   * which must be non-empty and denote a value that fits in 32 bits.
   */
  function ReadUInt32(buf: string, pos: nat): (r: Result<(UInt32, nat)>)
    requires pos <= |buf|
    ensures r.Success? ==>
      var (v, q) := r.value;
      pos < q <= |buf| && AllDigits(buf[pos..q]) && (q == |buf| || !IsDigit(buf[q])) &&
      v == DigitsValue(buf[pos..q])
    ensures r.Success? <==>
      pos < DigitsEnd(buf, pos) && DigitsValue(buf[pos..DigitsEnd(buf, pos)]) <= MaxUInt32
    ensures r.Failure? ==> r.error.at == pos
    ensures r.Failure? && r.error.kind == ExpectedDigit <==> pos == |buf| || !IsDigit(buf[pos])
  {
    var q := DigitsEnd(buf, pos);
    if q == pos then Failure(ParseError(ExpectedDigit, pos))
    else
      var v := DigitsValue(buf[pos..q]);
      if v <= MaxUInt32 then Success((v, q)) else Failure(ParseError(Overflow, pos))
  }

  // ---------------------------------------------------------------------
  // Uniqueness of the stopping points
  // ---------------------------------------------------------------------

  lemma SkipWhitespaceStopsAt(buf: string, pos: nat, q: nat)
    requires pos <= q <= |buf|
    requires forall i :: pos <= i < q ==> IsWhitespace(buf[i])
    requires q == |buf| || !IsWhitespace(buf[q])
    ensures SkipWhitespaceFrom(buf, pos) == q
  {
  }

  lemma SkipToOneOfStopsAt(buf: string, pos: nat, cs: string, q: nat)
    requires pos <= q <= |buf|
    requires forall i :: pos <= i < q ==> buf[i] !in cs
    requires q == |buf| || buf[q] in cs
    ensures SkipToOneOfFrom(buf, pos, cs) == q
  {
  }

  lemma DigitsEndAt(buf: string, pos: nat, q: nat)
    requires pos <= q <= |buf|
    requires forall i :: pos <= i < q ==> IsDigit(buf[i])
    requires q == |buf| || !IsDigit(buf[q])
    ensures DigitsEnd(buf, pos) == q
  {
  }

  /** Reading one more digit of a run: the value shifts by one decimal place. */
  lemma DigitStep(buf: string, pos: nat, p: nat)
    requires pos <= p < |buf| && AllDigits(buf[pos..p]) && IsDigit(buf[p])
    ensures AllDigits(buf[pos..p + 1])
    ensures DigitsValue(buf[pos..p + 1]) == DigitsValue(buf[pos..p]) * 10 + DigitValue(buf[p])
  {
    assert buf[pos..p + 1] == buf[pos..p] + [buf[p]];
    DigitsValueAppend(buf[pos..p], buf[p]);
  }

  // ---------------------------------------------------------------------
  // The buffer
  // ---------------------------------------------------------------------

  class ParseBuffer {
    const buf: string
    var pos: nat

    ghost predicate Valid()
      reads this
    {
      pos <= |buf|
    }

    constructor (text: string)
      ensures Valid() && buf == text && pos == 0
    {
      buf := text;
      pos := 0;
    }

    method SkipWhitespace()
      requires Valid()
      modifies this
      ensures Valid() && pos == SkipWhitespaceFrom(buf, old(pos))
    {
      while pos < |buf| && IsWhitespace(buf[pos])
        invariant old(pos) <= pos <= |buf|
        invariant SkipWhitespaceFrom(buf, pos) == SkipWhitespaceFrom(buf, old(pos))
        decreases |buf| - pos
      {
        pos := pos + 1;
      }
    }

    method SkipChar(c: char) returns (o: Outcome)
      requires Valid()
      modifies this
      ensures Valid()
      ensures match SkipCharAt(buf, old(pos), c)
        case Success(p) => o == Pass && pos == p
        case Failure(e) => o == Fail(e) && pos == old(pos)
    {
      if pos == |buf| {
        o := Fail(ParseError(UnexpectedEof, pos));
      } else if buf[pos] != c {
        o := Fail(ParseError(ExpectedChar(c), pos));
      } else {
        pos := pos + 1;
        o := Pass;
      }
    }

    /** Fails at the end of the text; never moves the cursor. */
    method AssertNotEof() returns (o: Outcome)
      requires Valid()
      ensures o.Pass? <==> pos < |buf|
      ensures o.Fail? ==> o.error == ParseError(UnexpectedEof, pos)
    {
      if pos == |buf| {
        o := Fail(ParseError(UnexpectedEof, pos));
      } else {
        o := Pass;
      }
    }

    method UInt32() returns (r: Result<UInt32>)
      requires Valid()
      modifies this
      ensures Valid()
      ensures match ReadUInt32(buf, old(pos))
        case Success((v, q)) => r == Success(v) && pos == q
        case Failure(e) => r == Failure(e) && pos == old(pos)
    {
      var p := pos;
      var n: nat := 0;
      while p < |buf| && IsDigit(buf[p])
        invariant pos == old(pos) <= p <= |buf|
        invariant AllDigits(buf[pos..p])
        invariant n == DigitsValue(buf[pos..p])
        invariant DigitsEnd(buf, p) == DigitsEnd(buf, pos)
        decreases |buf| - p
      {
        DigitStep(buf, pos, p);
        n := n * 10 + DigitValue(buf[p]);
        p := p + 1;
      }
      assert p == DigitsEnd(buf, pos);
      if p == pos {
        r := Failure(ParseError(ExpectedDigit, pos));
      } else if n > MaxUInt32 {
        r := Failure(ParseError(Overflow, pos));
      } else {
        assert ReadUInt32(buf, pos) == Success((n, p));
        r := Success(n);
        pos := p;
      }
    }

    method SkipToOneOf(cs: string)
      requires Valid()
      modifies this
      ensures Valid() && pos == SkipToOneOfFrom(buf, old(pos), cs)
    {
      while pos < |buf| && buf[pos] !in cs
        invariant old(pos) <= pos <= |buf|
        invariant SkipToOneOfFrom(buf, pos, cs) == SkipToOneOfFrom(buf, old(pos), cs)
        decreases |buf| - pos
      {
        pos := pos + 1;
      }
    }
  }
}
