/** The text framing of websocket messages: event, message id, flag and JSON data, separated
    by semicolons. */
module Framing {
  import opened Outcomes
  import opened Division

  // ---------------------------------------------------------------- decimal numbers

  predicate IsDigit(c: char) { '0' <= c <= '9' }

  predicate Digits(s: string) { s != "" && forall i | 0 <= i < |s| :: IsDigit(s[i]) }

  function DigitOf(n: nat): char
    requires n < 10
  {
    '0' + n as char
  }

  function ValueOf(c: char): nat
    requires IsDigit(c)
  {
    c as int - '0' as int
  }

  /** `%d` of a number that is not negative. */
  function Print(n: nat): (s: string)
    ensures Digits(s)
  {
    if n < 10 then [DigitOf(n)] else Print(n / 10) + [DigitOf(n % 10)]
  }

  function Value(s: string): nat
    requires Digits(s)
  {
    if |s| == 1 then ValueOf(s[0]) else 10 * Value(s[..|s| - 1]) + ValueOf(s[|s| - 1])
  }

  /** `strconv.ParseUint(s, 10, bits)`, with `limit` for two to the power of `bits`. */
  function ParseUint(s: string, limit: nat): Option<nat> {
    if Digits(s) && Value(s) < limit then Some(Value(s)) else None
  }

  lemma {:induction false} ValueOfPrint(n: nat)
    ensures Value(Print(n)) == n
  {
    if n >= 10 {
      ValueOfPrint(n / 10);
      assert Print(n)[..|Print(n)| - 1] == Print(n / 10);
    }
  }

  /** Written without leading zeros. */
  predicate Canonical(s: string)
    requires Digits(s)
  {
    |s| == 1 || s[0] != '0'
  }

  lemma {:induction false} PrintCanonical(n: nat)
    ensures Canonical(Print(n)) && (n > 0 ==> Print(n)[0] != '0')
  {
    if n >= 10 { PrintCanonical(n / 10); }
  }

  lemma {:induction false} ValuePositive(s: string)
    requires Digits(s) && s[0] != '0'
    ensures Value(s) > 0
  {
    if |s| > 1 { ValuePositive(s[..|s| - 1]); }
  }

  /** Printing undoes parsing exactly for canonical numbers. */
  lemma {:induction false} PrintOfValue(s: string)
    requires Digits(s)
    ensures Print(Value(s)) == s <==> Canonical(s)
  {
    PrintCanonical(Value(s));
    if Canonical(s) && |s| > 1 {
      var t := s[..|s| - 1];
      ValuePositive(t);
      PrintOfValue(t);
      QuotientUnique(Value(s), 10, Value(t), ValueOf(s[|s| - 1]));
      assert s == t + [s[|s| - 1]];
    }
  }

  // ---------------------------------------------------------------- fields

  /** The text before and after the first semicolon. */
  function Cut(s: string): (r: Option<(string, string)>)
    ensures r.Some? ==> ';' !in r.value.0 && s == r.value.0 + ";" + r.value.1
    ensures r.None? ==> ';' !in s
  {
    if s == "" then None
    else if s[0] == ';' then Some(("", s[1..]))
    else match Cut(s[1..])
      case None => None
      case Some((a, b)) => Some(([s[0]] + a, b))
  }

  lemma {:induction false} CutAt(a: string, b: string)
    requires ';' !in a
    ensures Cut(a + ";" + b) == Some((a, b))
  {
    var s := a + ";" + b;
    if a == "" {
      assert s[1..] == b;
    } else {
      assert a[0] in a && s[1..] == a[1..] + ";" + b;
      CutAt(a[1..], b);
      assert [a[0]] + a[1..] == a;
    }
  }

  predicate ValidFlag(flag: nat) { flag == 0 || flag == 1 || flag == 2 || flag == 4 }

  const U64: nat := 0x1_0000_0000_0000_0000
  const U8: nat := 256

  datatype Frame = Frame(evt: string, id: nat, flag: nat, data: string)

  function Encode(f: Frame): string {
    f.evt + ";" + (Print(f.id) + ";" + (Print(f.flag) + ";" + f.data))
  }

  /** The four fields of a text, before the numbers are read. */
  function Fields(s: string): Option<(string, string, string, string)> {
    match Cut(s)
    case None => None
    case Some((evt, s1)) =>
      match Cut(s1)
      case None => None
      case Some((id, s2)) =>
        match Cut(s2)
        case None => None
        case Some((flag, data)) => Some((evt, id, flag, data))
  }

  /** `None` stands for the errors.  A bad id is reported before a missing flag. */
  function Decode(s: string): Option<Frame> {
    match Cut(s)
    case None => None
    case Some((evt, s1)) =>
      match Cut(s1)
      case None => None
      case Some((idText, s2)) =>
        match ParseUint(idText, U64)
        case None => None
        case Some(id) =>
          match Cut(s2)
          case None => None
          case Some((flagText, data)) =>
            match ParseUint(flagText, U8)
            case None => None
            case Some(flag) => if ValidFlag(flag) then Some(Frame(evt, id, flag, data)) else None
  }

  lemma NoSemicolon(s: string)
    requires Digits(s)
    ensures ';' !in s
  {}

  lemma FieldsOfEncode(f: Frame)
    requires ';' !in f.evt
    ensures Fields(Encode(f)) == Some((f.evt, Print(f.id), Print(f.flag), f.data))
  {
    NoSemicolon(Print(f.id));
    NoSemicolon(Print(f.flag));
    CutAt(Print(f.flag), f.data);
    CutAt(Print(f.id), Print(f.flag) + ";" + f.data);
    CutAt(f.evt, Print(f.id) + ";" + (Print(f.flag) + ";" + f.data));
  }

  /** Decoding gives back what was encoded, whatever the data contains, if and only if the
      event name has no semicolon, the id is a 64-bit number, and the flag is one of the four. */
  lemma DecodeOfEncode(f: Frame)
    ensures Decode(Encode(f)) == Some(f) <==>
              ';' !in f.evt && f.id < 0x1_0000_0000_0000_0000 &&
              (f.flag == 0 || f.flag == 1 || f.flag == 2 || f.flag == 4)
  {
    hide Print, Value;
    ValueOfPrint(f.id);
    ValueOfPrint(f.flag);
    if ';' !in f.evt { FieldsOfEncode(f); }
  }

  /** Any accepted text consists of four fields whose numbers are the decoded ones. */
  lemma DecodeSound(s: string)
    requires Decode(s).Some?
    ensures Fields(s).Some?
    ensures var f := Decode(s).value;
            var (evt, id, flag, data) := Fields(s).value;
            && f.evt == evt && ';' !in evt && f.data == data
            && Digits(id) && Value(id) == f.id < U64
            && Digits(flag) && Value(flag) == f.flag && (f.flag == 0 || f.flag == 1 || f.flag == 2 || f.flag == 4)
            && s == evt + ";" + (id + ";" + (flag + ";" + data))
  {}

  /** Encoding an accepted text again reproduces it exactly when its numbers were canonical. */
  lemma EncodeOfDecode(s: string)
    requires Decode(s).Some?
    ensures Fields(s).Some? && Digits(Fields(s).value.1) && Digits(Fields(s).value.2)
    ensures Encode(Decode(s).value) == s <==> Canonical(Fields(s).value.1) && Canonical(Fields(s).value.2)
  {
    DecodeSound(s);
    var f := Decode(s).value;
    var (evt, id, flag, data) := Fields(s).value;
    PrintOfValue(id);
    PrintOfValue(flag);
    hide Decode, Print, Value, Canonical;
    if Encode(f) == s {
      FieldsOfEncode(f);
    }
  }
}
