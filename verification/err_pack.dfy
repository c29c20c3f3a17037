/** The error descriptor: a (code, message) pair, its Error() text and the
    fixed catalog of descriptors whose codes follow the four-digit "A B CD"
    convention (A: outcome, B: category, CD: specific error). */
module ErrPacks {
  import opened Wrappers
  import opened Strconv

  /** Go's int16. */
  type Int16 = x: int | -0x8000 <= x < 0x8000

  datatype ErrPack = ErrPack(code: Int16, msg: string)

  const CodePrefix: string := "error: code="
  const MsgSeparator: string := ", Msg="

  /** ErrPack.Error(): the code in decimal and the message, in a fixed frame. */
  function Error(e: ErrPack): string
  {
    CodePrefix + FormatInt(e.code) + MsgSeparator + e.msg
  }

  /** Index of the first occurrence of c in s, or |s| when there is none. */
  function IndexOf(s: string, c: char): (k: nat)
    ensures k <= |s|
    ensures forall j :: 0 <= j < k ==> s[j] != c
    ensures k < |s| ==> s[k] == c
  {
    if s == [] || s[0] == c then 0 else 1 + IndexOf(s[1..], c)
  }

  /** Reads an ErrPack back from the text Error() gives it: the code runs up to
      the first comma, the message is everything after the separator. */
  function ParseErrorText(s: string): Option<ErrPack>
  {
    if |s| < |CodePrefix| || s[..|CodePrefix|] != CodePrefix then None
    else
      var rest := s[|CodePrefix|..];
      var k := IndexOf(rest, ',');
      var code := ParseIntSpec(rest[..k]);
      if code.status != Ok || !(-0x8000 <= code.value < 0x8000) then None
      else if |rest| < k + |MsgSeparator| || rest[k..k + |MsgSeparator|] != MsgSeparator then None
      else Some(ErrPack(code.value, rest[k + |MsgSeparator|..]))
  }

  /** Error() loses nothing: code and message are both recoverable from it. */
  lemma ErrorTextRoundTrip(e: ErrPack)
    ensures ParseErrorText(Error(e)) == Some(e)
  {
    var digits := FormatInt(e.code);
    var s := Error(e);
    assert s[..|CodePrefix|] == CodePrefix;
    var rest := s[|CodePrefix|..];
    assert rest == digits + MsgSeparator + e.msg;
    assert rest[|digits|] == ',';
    assert IndexOf(rest, ',') == |digits|;
    assert rest[..|digits|] == digits;
    ParseIntOfFormatInt(e.code);
    assert rest[|digits|..|digits| + |MsgSeparator|] == MsgSeparator;
    assert rest[|digits| + |MsgSeparator|..] == e.msg;
  }

  /** Two descriptors with the same Error() text are the same descriptor. */
  lemma ErrorTextInjective(e1: ErrPack, e2: ErrPack)
    requires Error(e1) == Error(e2)
    ensures e1 == e2
  {
    ErrorTextRoundTrip(e1);
    ErrorTextRoundTrip(e2);
  }

  const ErrOK              := ErrPack(2000, "success")
  const ErrUnknown         := ErrPack(5600, "unknown error")
  const ErrInputHeader     := ErrPack(4101, "input header error")
  const ErrInputBody       := ErrPack(4102, "input body error")
  const ErrInputToken      := ErrPack(4103, "input token error")
  const ErrInputCookie     := ErrPack(4104, "input cookie error")
  const ErrTypeConv        := ErrPack(5201, "type conversion error")
  const ErrParseToken      := ErrPack(5202, "parse token error")
  const ErrParseCookie     := ErrPack(5203, "parse token error")
  const ErrSetToken        := ErrPack(5204, "set token error")
  const ErrSetCookie       := ErrPack(5205, "set cookie error")
  const ErrDBConn          := ErrPack(5301, "database connection error")
  const ErrNoRecord        := ErrPack(5302, "database no record error")
  const ErrDuplicateRecord := ErrPack(5303, "database duplicate record error")
  const ErrServiceConn     := ErrPack(5401, "service communication error")

  /** A catalog entry: the Go variable's name and its value. */
  datatype Entry = Entry(name: string, pack: ErrPack)

  /** The catalog in declaration order. */
  const Catalog: seq<Entry> := [
    Entry("ErrOK", ErrOK),
    Entry("ErrUnknown", ErrUnknown),
    Entry("ErrInputHeader", ErrInputHeader),
    Entry("ErrInputBody", ErrInputBody),
    Entry("ErrInputToken", ErrInputToken),
    Entry("ErrInputCookie", ErrInputCookie),
    Entry("ErrTypeConv", ErrTypeConv),
    Entry("ErrParseToken", ErrParseToken),
    Entry("ErrParseCookie", ErrParseCookie),
    Entry("ErrSetToken", ErrSetToken),
    Entry("ErrSetCookie", ErrSetCookie),
    Entry("ErrDBConn", ErrDBConn),
    Entry("ErrNoRecord", ErrNoRecord),
    Entry("ErrDuplicateRecord", ErrDuplicateRecord),
    Entry("ErrServiceConn", ErrServiceConn)
  ]

  /** Digit A: 2 success, 4 client error, 5 server error. */
  function Outcome(code: int): int { code / 1000 }

  /** Digit B: 1 input, 2 data type, 3 database, 4 communication, 5 logical, 6 unknown. */
  function Category(code: int): int { code / 100 % 10 }

  /** Digits CD: 00 unspecified, 01 to 99 a specific error. */
  function Specific(code: int): int { code % 100 }

  const InputErrors: set<string> := {"ErrInputHeader", "ErrInputBody", "ErrInputToken", "ErrInputCookie"}
  const DataTypeErrors: set<string> :=
    {"ErrTypeConv", "ErrParseToken", "ErrParseCookie", "ErrSetToken", "ErrSetCookie"}
  const DatabaseErrors: set<string> := {"ErrDBConn", "ErrNoRecord", "ErrDuplicateRecord"}
  const CommunicationErrors: set<string> := {"ErrServiceConn"}

  /** Every catalog code has exactly four decimal digits (and, by its type, fits in int16). */
  lemma CatalogCodesHaveFourDigits()
    ensures forall i :: 0 <= i < |Catalog| ==> 1000 <= Catalog[i].pack.code <= 9999
  {
  }

  /** The outcome digit: 2 for ErrOK alone, 4 exactly for the input errors, 5 for the rest. */
  lemma CatalogOutcomeDigit()
    ensures forall i :: 0 <= i < |Catalog| ==>
      (Outcome(Catalog[i].pack.code) == 2 <==> Catalog[i].name == "ErrOK") &&
      (Outcome(Catalog[i].pack.code) == 4 <==> Catalog[i].name in InputErrors) &&
      (Outcome(Catalog[i].pack.code) in {2, 4, 5})
  {
  }

  /** The category digit agrees with the documented category of each entry. */
  lemma CatalogCategoryDigit()
    ensures forall i :: 0 <= i < |Catalog| ==>
      var b := Category(Catalog[i].pack.code);
      var n := Catalog[i].name;
      (b == 0 <==> n == "ErrOK") &&
      (b == 1 <==> n in InputErrors) &&
      (b == 2 <==> n in DataTypeErrors) &&
      (b == 3 <==> n in DatabaseErrors) &&
      (b == 4 <==> n in CommunicationErrors) &&
      (b == 6 <==> n == "ErrUnknown") &&
      b != 5
  {
  }

  /** The last two digits are 00 for ErrOK and ErrUnknown only, 01 to 99 otherwise. */
  lemma CatalogSpecificDigits()
    ensures forall i :: 0 <= i < |Catalog| ==>
      (Specific(Catalog[i].pack.code) == 0 <==> Catalog[i].name in {"ErrOK", "ErrUnknown"}) &&
      0 <= Specific(Catalog[i].pack.code) <= 99
  {
  }

  /** No two entries share a code, so no two entries are equal, and ErrOK is
      the only entry equal to ErrOK; messages, however, repeat. */
  lemma CatalogCodesDistinct()
    ensures forall i, j :: 0 <= i < j < |Catalog| ==> Catalog[i].pack.code != Catalog[j].pack.code
    ensures forall i :: 0 <= i < |Catalog| ==> (Catalog[i].pack == ErrOK <==> i == 0)
    ensures ErrParseToken.msg == ErrParseCookie.msg && ErrParseToken != ErrParseCookie
  {
  }
}
