/**
 * A SIP parameter whose value is an unsigned 32-bit decimal, such as
 * ";ttl=5" or ";expires=3600" (resip/stack/UInt32Parameter.cxx).
 *
 * The parser starts just after the parameter name, skips optional
 * whitespace, one '=', optional whitespace, insists that input remains and
 * reads the number. The expires parameter alone tolerates a value that is
 * not a number (an RFC 2543 style quoted date): it then takes the value 3600
 * and moves the cursor to the next parameter terminator. The encoder writes
 * the name, '=' and the decimal value.
 */
module Stack {
  import opened Decimal
  import opened Rutil

  /**
   * The parameter types that carry an unsigned 32-bit value. Only expires is
   * treated specially; every other type is represented by its registered name.
   */
  datatype ParameterKind = Expires | Other(name: string)

  /** As in the library's table of parameter types, each type has its own name. */
  type ParameterType = t: ParameterKind | !(t.Other? && t.name == "expires") witness Expires

  function Name(t: ParameterType): string {
    match t
    case Expires => "expires"
    case Other(n) => n
  }

  /** The name "expires" belongs to the expires type and to no other. */
  lemma NameIdentifiesExpires(t: ParameterType)
    ensures Name(t) == "expires" <==> t.Expires?
  {
  }

  /** The value an expires parameter takes when its text is not a number. */
  const DefaultExpires: UInt32 := 3600

  // ---------------------------------------------------------------------
  // The parsing constructor as a function of the text and the cursor
  // ---------------------------------------------------------------------

  /**
   * The value parsed for a parameter of type t from buf, starting at pos
   * (just after the name), with the cursor position where parsing ends; or
   * the parse error raised, which records where the cursor was left.
   */
  function ParseValue(t: ParameterType, buf: string, pos: nat): (r: Result<(UInt32, nat)>)
    requires pos <= |buf|
    ensures r.Success? ==> pos <= r.value.1 <= |buf|
    ensures r.Failure? ==> pos <= r.error.at <= |buf|
  {
    match SkipCharAt(buf, SkipWhitespaceFrom(buf, pos), '=')
    case Failure(e) => Failure(e)
    case Success(afterEquals) =>
      var start := SkipWhitespaceFrom(buf, afterEquals);
      match NotEofAt(buf, start)
      case Failure(e) => Failure(e)
      case Success(_) =>
        match ReadUInt32(buf, start)
        case Success(read) => Success(read)
        case Failure(e) =>
          if t.Expires? then Success((DefaultExpires, SkipToOneOfFrom(buf, start, ParamTerm)))
          else Failure(e)
  }

  // ---------------------------------------------------------------------
  // The shape of the text, stated independently of the parser
  // ---------------------------------------------------------------------

  /**
   * Between pos and start the text is: whitespace, a '=' at eq, whitespace;
   * and start is where that last whitespace ends.
   */
  predicate ValueStartsAt(buf: string, pos: nat, eq: nat, start: nat) {
    pos <= eq < start <= |buf| &&
    (forall i :: pos <= i < eq ==> IsWhitespace(buf[i])) &&
    buf[eq] == '=' &&
    (forall i :: eq < i < start ==> IsWhitespace(buf[i])) &&
    (start == |buf| || !IsWhitespace(buf[start]))
  }

  /** buf[start..q] is a maximal, non-empty run of digits. */
  predicate NumberAt(buf: string, start: nat, q: nat) {
    start < q <= |buf| && AllDigits(buf[start..q]) && (q == |buf| || !IsDigit(buf[q]))
  }

  /** q is the first parameter terminator at or after from, or the end of the text. */
  predicate FirstTerminator(buf: string, from: nat, q: nat) {
    from <= q <= |buf| &&
    (forall i :: from <= i < q ==> buf[i] !in ParamTerm) &&
    (q == |buf| || buf[q] in ParamTerm)
  }

  /** The text at start (not the end) is not an unsigned 32-bit number. */
  predicate NotAUInt32At(buf: string, start: nat)
    requires start < |buf|
  {
    !IsDigit(buf[start]) || DigitsValue(buf[start..DigitsEnd(buf, start)]) > MaxUInt32
  }

  // ---------------------------------------------------------------------
  // The parameter object
  // ---------------------------------------------------------------------

  class UInt32Parameter {
    const paramType: ParameterType
    var value: UInt32

    /** The value constructor: stores the type and the value as given. */
    constructor (t: ParameterType, v: UInt32)
      ensures paramType == t && value == v
    {
      paramType := t;
      value := v;
    }

    /**
     * The parsing constructor. The cursor of pb starts just after the
     * parameter name. The terminators argument is accepted and, as in the
     * library, not consulted: the expires fallback always skips to ParamTerm.
     */
    static method Parse(t: ParameterType, pb: ParseBuffer, terminators: string)
      returns (r: Result<UInt32Parameter>)
      requires pb.Valid()
      modifies pb
      ensures pb.Valid()
      ensures match ParseValue(t, pb.buf, old(pb.pos))
        case Success((v, q)) =>
          r.Success? && fresh(r.value) &&
          r.value.paramType == t && r.value.value == v && pb.pos == q
        case Failure(e) => r == Failure(e) && pb.pos == e.at
    {
      var v: UInt32 := 0;
      pb.SkipWhitespace();
      var o := pb.SkipChar('=');
      if o.Fail? {
        return Failure(o.error);
      }
      pb.SkipWhitespace();
      o := pb.AssertNotEof();
      if o.Fail? {
        return Failure(o.error);
      }
      if t.Expires? {
        var n := pb.UInt32();
        match n
        case Success(x) =>
          v := x;
        case Failure(_) =>
          v := DefaultExpires;
          pb.SkipToOneOf(ParamTerm);
      } else {
        var n := pb.UInt32();
        if n.Failure? {
          return Failure(n.error);
        }
        v := n.value;
      }
      var p := new UInt32Parameter(t, v);
      r := Success(p);
    }

    /** A new parameter object with the same type and value. */
    method Clone() returns (p: UInt32Parameter)
      ensures fresh(p)
      ensures p.paramType == paramType && p.value == value
    {
      p := new UInt32Parameter(paramType, value);
    }

    /**
     * The text written to the output stream: the parameter's name, one '=',
     * and the value in decimal without leading zeros, and nothing else.
     */
    function Encode(): (s: string)
      reads this
      ensures var n := |Name(paramType)|;
        n < |s| && s[..n] == Name(paramType) && s[n] == '=' &&
        var digits := s[n + 1..];
        1 <= |digits| && AllDigits(digits) && DigitsValue(digits) == value &&
        (digits[0] == '0' ==> |digits| == 1)
    {
      var digits := ToDecimal(value);
      var s := Name(paramType) + "=" + digits;
      assert s[..|Name(paramType)|] == Name(paramType);
      assert s[|Name(paramType)| + 1..] == digits;
      s
    }
  }

  // ---------------------------------------------------------------------
  // What the parsing constructor accepts, rejects and tolerates
  // ---------------------------------------------------------------------

  /**
   * A well-formed number after the '=' is the parsed value, for every type
   * (expires included), and the cursor stops just after its last digit.
   */
  lemma ParseOfNumber(t: ParameterType, buf: string, pos: nat, eq: nat, start: nat, q: nat)
    requires ValueStartsAt(buf, pos, eq, start) && NumberAt(buf, start, q)
    requires DigitsValue(buf[start..q]) <= MaxUInt32
    ensures ParseValue(t, buf, pos) == Success((DigitsValue(buf[start..q]), q))
  {
    SkipWhitespaceStopsAt(buf, pos, eq);
    SkipWhitespaceStopsAt(buf, eq + 1, start);
    DigitsEndAt(buf, start, q);
  }

  /**
   * For every type but expires, a value that is not an unsigned 32-bit
   * number is an error raised where the value starts; no default is used.
   */
  lemma NonExpiresRejectsMalformed(t: ParameterType, buf: string, pos: nat, eq: nat, start: nat)
    requires !t.Expires?
    requires ValueStartsAt(buf, pos, eq, start) && start < |buf| && NotAUInt32At(buf, start)
    ensures ParseValue(t, buf, pos) ==
      Failure(ParseError(if IsDigit(buf[start]) then Overflow else ExpectedDigit, start))
  {
  }

  /**
   * An expires value that is not an unsigned 32-bit number is never an
   * error: it yields 3600, with the cursor on the next parameter terminator.
   */
  lemma ExpiresToleratesMalformed(buf: string, pos: nat, eq: nat, start: nat, q: nat)
    requires ValueStartsAt(buf, pos, eq, start) && start < |buf| && NotAUInt32At(buf, start)
    requires FirstTerminator(buf, start, q)
    ensures ParseValue(Expires, buf, pos) == Success((DefaultExpires, q))
  {
  }

  /**
   * Running out of input after the '=' and its whitespace is an error for
   * every type, expires included: the end-of-input check comes first.
   */
  lemma EndOfInputAfterEquals(t: ParameterType, buf: string, pos: nat, eq: nat)
    requires ValueStartsAt(buf, pos, eq, |buf|)
    ensures ParseValue(t, buf, pos) == Failure(ParseError(UnexpectedEof, |buf|))
  {
  }

  /** Without a '=' after the optional whitespace, parsing fails at that point. */
  lemma MissingEquals(t: ParameterType, buf: string, pos: nat, p: nat)
    requires pos <= p <= |buf| && forall i :: pos <= i < p ==> IsWhitespace(buf[i])
    requires p == |buf| || (!IsWhitespace(buf[p]) && buf[p] != '=')
    ensures ParseValue(t, buf, pos) ==
      Failure(ParseError(if p == |buf| then UnexpectedEof else ExpectedChar('='), p))
  {
  }

  /**
   * Conversely, every successful parse is one of the two cases above: a
   * well-formed number read as it is, or the expires fallback.
   */
  lemma ParseSuccessShape(t: ParameterType, buf: string, pos: nat) returns (eq: nat, start: nat)
    requires pos <= |buf| && ParseValue(t, buf, pos).Success?
    ensures ValueStartsAt(buf, pos, eq, start) && start < |buf|
    ensures var (v, q) := ParseValue(t, buf, pos).value;
      (NumberAt(buf, start, q) && v == DigitsValue(buf[start..q])) ||
      (t.Expires? && NotAUInt32At(buf, start) && v == DefaultExpires && FirstTerminator(buf, start, q))
  {
    eq := SkipWhitespaceFrom(buf, pos);
    start := SkipWhitespaceFrom(buf, eq + 1);
  }

  /**
   * Every parse error is a missing '=', input ending too early, or, for
   * types other than expires only, a value that is not a 32-bit number.
   */
  lemma ParseErrorKinds(t: ParameterType, buf: string, pos: nat)
    requires pos <= |buf| && ParseValue(t, buf, pos).Failure?
    ensures var e := ParseValue(t, buf, pos).error;
      e.kind == UnexpectedEof || e.kind == ExpectedChar('=') ||
      (!t.Expires? && (e.kind == ExpectedDigit || e.kind == Overflow))
  {
  }

  /**
   * An RFC 2543 style expires value, a quoted date such as
   * "Thu, 01 Dec 1994 16:00:00 GMT", becomes 3600 and the cursor stops on the
   * ';' that opens the next parameter; a comma inside the date does not stop it.
   */
  lemma ExpiresQuotedDate(date: string, rest: string)
    requires 2 <= |date| && date[0] == '"' && date[|date| - 1] == '"'
    requires forall i :: 0 <= i < |date| ==> date[i] !in ParamTerm
    ensures ParseValue(Expires, "=" + date + ";" + rest, 0) == Success((DefaultExpires, |date| + 1))
  {
    var buf := "=" + date + ";" + rest;
    assert forall i :: 1 <= i <= |date| ==> buf[i] == date[i - 1];
    assert buf[|date| + 1] == ';';
    ExpiresToleratesMalformed(buf, 0, 0, 1, |date| + 1);
  }

  // ---------------------------------------------------------------------
  // Encoding and parsing agree
  // ---------------------------------------------------------------------

  /**
   * Parsing the encoded text from just after the name gives back the value
   * and consumes the whole encoding, whatever follows it (unless that is
   * another digit).
   */
  lemma EncodeRoundTrip(p: UInt32Parameter, rest: string)
    requires rest == [] || !IsDigit(rest[0])
    ensures var s := p.Encode();
      ParseValue(p.paramType, s + rest, |Name(p.paramType)|) == Success((p.value, |s|))
  {
    var s := p.Encode();
    var buf := s + rest;
    var n := |Name(p.paramType)|;
    assert buf[n] == '=';
    assert buf[n + 1..|s|] == s[n + 1..];
    assert IsDigit(buf[n + 1]);
    ParseOfNumber(p.paramType, buf, n, n, n + 1, |s|);
  }
}
