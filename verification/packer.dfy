/** The tag-driven packer. A response struct is described by its field table
    (name, Go type, exported-ness and the value of its `ep` tag) and its field
    values; Pack normalises the error to an ErrPack, fills a fresh zero-valued
    copy of the struct field by field according to the tags, and stores the
    copy back into the packer. */
module Packing {
  import opened Wrappers
  import opened Strconv
  import opened ErrPacks

  // ---------------------------------------------------------------- errors

  /** A Go error value as far as the packer can observe it: nil, an ErrPack,
      an error that wraps another (Unwrap), or any other error with its text. */
  datatype GoError =
    | Nil
    | PackErr(pack: ErrPack)
    | Wrapped(text: string, inner: GoError)
    | Opaque(text: string)

  /** err.Error() of a non-nil error. */
  function Text(err: GoError): string
    requires err != Nil
  {
    match err
    case PackErr(p) => Error(p)
    case Wrapped(t, _) => t
    case Opaque(t) => t
  }

  /** The unwrap chain errors.As walks: the error itself, then what it wraps. */
  function Chain(err: GoError): (c: seq<GoError>)
    ensures err != Nil ==> c != [] && c[0] == err
  {
    match err
    case Nil => []
    case Wrapped(_, inner) => [err] + Chain(inner)
    case _ => [err]
  }

  /** errors.As(err, &errPack): the first ErrPack met while unwrapping. */
  function As(err: GoError): Option<ErrPack>
  {
    match err
    case Nil => None
    case PackErr(p) => Some(p)
    case Wrapped(_, inner) => As(inner)
    case Opaque(_) => None
  }

  /** c[i] is PackErr(p) and no earlier element of c is an ErrPack. */
  ghost predicate FirstPackAt(c: seq<GoError>, i: nat, p: ErrPack)
  {
    i < |c| && c[i] == PackErr(p) && forall j :: 0 <= j < i ==> !c[j].PackErr?
  }

  /** errors.As finds p exactly when p is the first ErrPack in the unwrap chain. */
  lemma AsFindsFirstInChain(err: GoError, p: ErrPack)
    ensures As(err) == Some(p) <==> exists i: nat :: FirstPackAt(Chain(err), i, p)
  {
    if As(err) == Some(p) {
      var i := FirstPackOfAs(err, p);
      assert exists k: nat :: FirstPackAt(Chain(err), k, p);
    }
    forall i: nat | FirstPackAt(Chain(err), i, p) ensures As(err) == Some(p) {
      AsOfFirstPack(err, p, i);
    }
    assert (exists k: nat :: FirstPackAt(Chain(err), k, p)) ==> As(err) == Some(p);
  }

  /** Where errors.As succeeds, the ErrPack it returns is first in the chain. */
  lemma {:induction false} FirstPackOfAs(err: GoError, p: ErrPack) returns (i: nat)
    requires As(err) == Some(p)
    ensures FirstPackAt(Chain(err), i, p)
  {
    match err
    case PackErr(_) =>
      i := 0;
    case Wrapped(_, inner) =>
      var k := FirstPackOfAs(inner, p);
      var c := Chain(err);
      assert c == [err] + Chain(inner);
      i := k + 1;
      forall j | 0 <= j < i ensures !c[j].PackErr? {
        if j > 0 { assert c[j] == Chain(inner)[j - 1]; }
      }
  }

  /** The first ErrPack in the chain is the one errors.As returns. */
  lemma {:induction false} AsOfFirstPack(err: GoError, p: ErrPack, i: nat)
    requires FirstPackAt(Chain(err), i, p)
    ensures As(err) == Some(p)
  {
    match err
    case PackErr(_) =>
    case Wrapped(_, inner) =>
      var c := Chain(err);
      assert c == [err] + Chain(inner);
      var k: nat := i - 1;
      forall j | 0 <= j < k ensures !Chain(inner)[j].PackErr? {
        assert Chain(inner)[j] == c[j + 1];
      }
      AsOfFirstPack(inner, p, k);
  }

  /** The prelude of Pack: nil is success, an error that is or wraps an ErrPack
      gives that ErrPack, anything else a copy of ErrUnknown carrying the
      error's own text. */
  function Normalize(err: GoError): ErrPack
  {
    if err == Nil then ErrOK
    else match As(err)
      case Some(p) => p
      case None => ErrPack(ErrUnknown.code, Text(err))
  }

  /** A nil error is success. */
  lemma NormalizeNil()
    ensures Normalize(Nil) == ErrOK
    ensures Normalize(Nil).code == 2000 && Normalize(Nil).msg == "success"
  {
  }

  /** err wrapped once per text of texts, outermost text first. */
  function WrapAll(texts: seq<string>, err: GoError): GoError
  {
    if texts == [] then err else Wrapped(texts[0], WrapAll(texts[1..], err))
  }

  /** An ErrPack, bare or wrapped any number of times, is used unchanged. */
  lemma NormalizeKeepsErrPack(texts: seq<string>, p: ErrPack)
    ensures Normalize(WrapAll(texts, PackErr(p))) == p
  {
    AsOfWrappedErrPack(texts, p);
  }

  lemma {:induction false} AsOfWrappedErrPack(texts: seq<string>, p: ErrPack)
    ensures WrapAll(texts, PackErr(p)) != Nil
    ensures As(WrapAll(texts, PackErr(p))) == Some(p)
  {
    if texts != [] {
      AsOfWrappedErrPack(texts[1..], p);
    }
  }

  /** A non-nil error with no ErrPack in its chain becomes code 5600 with the
      error's own text; the ErrUnknown constant keeps its message. */
  lemma NormalizeUnclassified(err: GoError)
    requires err != Nil
    requires forall j :: 0 <= j < |Chain(err)| ==> !Chain(err)[j].PackErr?
    ensures Normalize(err).code == ErrUnknown.code == 5600
    ensures Normalize(err).msg == Text(err)
    ensures ErrUnknown.msg == "unknown error"
  {
    if As(err).Some? {
      AsFindsFirstInChain(err, As(err).value);
    }
  }

  /** Normalising is idempotent: the descriptor, raised as an error, normalises to itself. */
  lemma NormalizeIdempotent(err: GoError)
    ensures Normalize(PackErr(Normalize(err))) == Normalize(err)
  {
  }

  /** The descriptor is ErrOK exactly when there was no error or the error
      carries ErrOK itself: a failure never reads as success. */
  lemma NormalizeIsOkIff(err: GoError)
    ensures Normalize(err) == ErrOK <==> err == Nil || As(err) == Some(ErrOK)
  {
  }

  // ---------------------------------------------------------------- fields

  /** The declared Go type of a field. Go's int and uint are taken to be 64 bits
      wide; GoOther stands for every other type (pointers, structs, slices,
      maps, named types). */
  datatype GoType =
    | GoString | GoBool
    | GoInt | GoInt8 | GoInt16 | GoInt32 | GoInt64
    | GoUint | GoUint8 | GoUint16 | GoUint32 | GoUint64 | GoUintptr
    | GoFloat32 | GoFloat64
    | GoOther

  datatype Width = W8 | W16 | W32 | W64

  function Modulus(w: Width): nat
  {
    match w
    case W8 => 0x100
    case W16 => 0x1_0000
    case W32 => 0x1_0000_0000
    case W64 => 0x1_0000_0000_0000_0000
  }

  predicate IsSigned(t: GoType) { t in {GoInt, GoInt8, GoInt16, GoInt32, GoInt64} }

  predicate IsUnsigned(t: GoType) { t in {GoUint, GoUint8, GoUint16, GoUint32, GoUint64, GoUintptr} }

  function WidthOf(t: GoType): Width
    requires IsSigned(t) || IsUnsigned(t)
  {
    match t
    case GoInt8 | GoUint8 => W8
    case GoInt16 | GoUint16 => W16
    case GoInt32 | GoUint32 => W32
    case _ => W64
  }

  /** Go's conversion of an integer to a signed type of width w (two's complement). */
  function ToSigned(x: int, w: Width): (r: int)
    ensures -(Modulus(w) / 2) <= r < Modulus(w) / 2
    ensures -(Modulus(w) / 2) <= x < Modulus(w) / 2 ==> r == x
    ensures (x - r) % Modulus(w) == 0
  {
    var y := x % Modulus(w);
    ModReduces(x, Modulus(w));
    if y >= Modulus(w) / 2 then
      assert (x - (y - Modulus(w))) % Modulus(w) == ((x - y) + Modulus(w)) % Modulus(w);
      MultipleMod(x / Modulus(w) + 1, Modulus(w));
      y - Modulus(w)
    else y
  }

  /** x and x % m differ by a multiple of m. */
  lemma ModReduces(x: int, m: int)
    requires m > 0
    ensures (x - x % m) % m == 0
    ensures x - x % m == (x / m) * m
  {
    MultipleMod(x / m, m);
  }

  lemma MultipleMod(k: int, m: int)
    requires m > 0
    ensures (k * m) % m == 0
  {
    var r := (k * m) % m;
    var d := k - (k * m) / m;
    assert d * m == r by {
      assert k * m == ((k * m) / m) * m + r;
    }
    if d >= 1 {
      MulAtLeast(d, m);
    } else if d <= -1 {
      MulAtLeast(-d, m);
    }
  }

  lemma {:induction false} MulAtLeast(a: nat, m: nat)
    requires a >= 1
    ensures a * m >= m
  {
    if a > 1 {
      MulAtLeast(a - 1, m);
      assert a * m == (a - 1) * m + m;
    }
  }

  /** Go's conversion of a non-negative integer to an unsigned type of width w. */
  function ToUnsigned(x: nat, w: Width): (r: nat)
    ensures r < Modulus(w)
    ensures x < Modulus(w) ==> r == x
    ensures (x - r) % Modulus(w) == 0
  {
    x % Modulus(w)
  }

  /** A float field's value, kept symbolic: zero, or whatever strconv.ParseFloat
      returns for the literal (itself zero when the literal does not parse). */
  datatype FloatValue = FloatZero | FloatFromLiteral(literal: string)

  /** A field value. OtherVal(0) is the zero value of a GoOther field; other
      tokens stand for its non-zero values (a non-nil pointer, say). */
  datatype Value =
    | StrVal(s: string)
    | IntVal(i: int)
    | UintVal(u: nat)
    | BoolVal(b: bool)
    | FloatVal(f: FloatValue)
    | OtherVal(token: nat)

  /** The zero value of a type. */
  function Zero(t: GoType): Value
  {
    match t
    case GoString => StrVal("")
    case GoBool => BoolVal(false)
    case GoInt | GoInt8 | GoInt16 | GoInt32 | GoInt64 => IntVal(0)
    case GoUint | GoUint8 | GoUint16 | GoUint32 | GoUint64 | GoUintptr => UintVal(0)
    case GoFloat32 | GoFloat64 => FloatVal(FloatZero)
    case GoOther => OtherVal(0)
  }

  /** v is a value of type t. */
  predicate HasType(v: Value, t: GoType)
  {
    match v
    case StrVal(_) => t == GoString
    case BoolVal(_) => t == GoBool
    case IntVal(i) => IsSigned(t) && -(Modulus(WidthOf(t)) / 2) <= i < Modulus(WidthOf(t)) / 2
    case UintVal(u) => IsUnsigned(t) && u < Modulus(WidthOf(t))
    case FloatVal(_) => t in {GoFloat32, GoFloat64}
    case OtherVal(_) => t == GoOther
  }

  /** One field of the struct type: its name, declared type, whether it is
      exported, and Tag.Get("ep") (empty when the tag is absent or empty). */
  datatype FieldDecl = FieldDecl(name: string, typ: GoType, exported: bool, tag: string)

  /** A struct value: its type's field table and one value per field. */
  datatype Struct = Struct(fields: seq<FieldDecl>, values: seq<Value>)

  predicate WellTyped(s: Struct)
  {
    |s.fields| == |s.values| &&
    forall i :: 0 <= i < |s.fields| ==> HasType(s.values[i], s.fields[i].typ)
  }

  const MsgTag: string := "err.msg"
  const CodeTag: string := "err.code"

  /** The struct types Pack handles without a reflection panic: a tagged field
      must be exported (Interface and Set panic otherwise), err.msg needs a
      string field (SetString) and err.code a signed integer field (SetInt). */
  predicate Packable(fields: seq<FieldDecl>)
  {
    forall i :: 0 <= i < |fields| ==>
      (fields[i].tag != "" ==> fields[i].exported) &&
      (fields[i].tag == MsgTag ==> fields[i].typ == GoString) &&
      (fields[i].tag == CodeTag ==> IsSigned(fields[i].typ))
  }

  /** The value a literal tag gives a field of type t: converted by the type's
      parser, the parse error dropped; types without a case stay zero. */
  function Literal(t: GoType, tag: string): Value
  {
    match t
    case GoString => StrVal(tag)
    case GoInt | GoInt32 | GoInt64 => IntVal(ToSigned(ParseIntSpec(tag).value, WidthOf(t)))
    case GoUint | GoUint32 | GoUint64 => UintVal(ToUnsigned(ParseUintSpec(tag).value, WidthOf(t)))
    case GoBool => BoolVal(ParseBool(tag).value)
    case GoFloat32 | GoFloat64 => FloatVal(FloatFromLiteral(tag))
    case _ => Zero(t)
  }

  /** The value Pack gives a field, given the normalised descriptor e. */
  function FieldValue(f: FieldDecl, e: ErrPack): Value
    requires f.tag == MsgTag ==> f.typ == GoString
    requires f.tag == CodeTag ==> IsSigned(f.typ)
  {
    if f.tag == "" then Zero(f.typ)
    else if f.tag == MsgTag then StrVal(e.msg)
    else if f.tag == CodeTag then IntVal(ToSigned(e.code, WidthOf(f.typ)))
    else Literal(f.typ, f.tag)
  }

  /** The field values of Pack's result; they depend on the field table and
      the descriptor only, never on the values the struct held before. */
  function PackedValues(fields: seq<FieldDecl>, e: ErrPack): (vs: seq<Value>)
    requires Packable(fields)
    ensures |vs| == |fields|
  {
    seq(|fields|, i requires 0 <= i < |fields| => FieldValue(fields[i], e))
  }

  /** Every packed value has its field's type, so the result is a struct of the same type. */
  lemma PackedIsWellTyped(fields: seq<FieldDecl>, e: ErrPack)
    requires Packable(fields)
    ensures WellTyped(Struct(fields, PackedValues(fields, e)))
  {
    forall i | 0 <= i < |fields|
      ensures HasType(PackedValues(fields, e)[i], fields[i].typ)
    {
      FieldValueHasType(fields[i], e);
    }
  }

  lemma FieldValueHasType(f: FieldDecl, e: ErrPack)
    requires f.tag == MsgTag ==> f.typ == GoString
    requires f.tag == CodeTag ==> IsSigned(f.typ)
    ensures HasType(FieldValue(f, e), f.typ)
  {
  }

  /** A field with an empty tag is zero whatever it held before. */
  lemma UntaggedFieldIsZero(s: Struct, e: ErrPack, i: nat)
    requires Packable(s.fields) && i < |s.fields| && s.fields[i].tag == ""
    ensures PackedValues(s.fields, e)[i] == Zero(s.fields[i].typ)
  {
  }

  /** err.msg receives the descriptor's message; err.code receives the code
      truncated to the field's width, which is the code itself on a signed
      field at least 16 bits wide. */
  lemma ErrTagsCarryDescriptor(fields: seq<FieldDecl>, err: GoError, i: nat)
    requires Packable(fields) && i < |fields|
    ensures fields[i].tag == MsgTag ==> PackedValues(fields, Normalize(err))[i] == StrVal(Normalize(err).msg)
    ensures fields[i].tag == CodeTag ==>
      PackedValues(fields, Normalize(err))[i] == IntVal(ToSigned(Normalize(err).code, WidthOf(fields[i].typ)))
    ensures fields[i].tag == CodeTag && fields[i].typ != GoInt8 ==>
      PackedValues(fields, Normalize(err))[i] == IntVal(Normalize(err).code)
  {
  }

  lemma NumeralIsNoErrTag(tag: string)
    requires tag != [] && (IsDigit(tag[0]) || tag[0] == '-')
    ensures tag != MsgTag && tag != CodeTag
  {
  }

  /** A literal tag holding the decimal text of an int64 gives that number to an
      int or int64 field. */
  lemma SignedLiteralRoundTrip(fields: seq<FieldDecl>, e: ErrPack, i: nat, n: int)
    requires Packable(fields) && i < |fields|
    requires fields[i].typ in {GoInt, GoInt64} && fields[i].tag == FormatInt(n)
    requires MinInt64 <= n <= MaxInt64
    ensures PackedValues(fields, e)[i] == IntVal(n)
  {
    var tag := fields[i].tag;
    NumeralIsNoErrTag(tag);
    ParseIntOfFormatInt(n);
    assert ToSigned(n, W64) == n;
    assert FieldValue(fields[i], e) == Literal(fields[i].typ, tag);
  }

  /** A literal tag holding the decimal text of a uint64 gives that number to a
      uint or uint64 field. */
  lemma UnsignedLiteralRoundTrip(fields: seq<FieldDecl>, e: ErrPack, i: nat, n: nat)
    requires Packable(fields) && i < |fields|
    requires fields[i].typ in {GoUint, GoUint64} && fields[i].tag == FormatNat(n)
    requires n <= MaxUint64
    ensures PackedValues(fields, e)[i] == UintVal(n)
  {
    var tag := fields[i].tag;
    NumeralIsNoErrTag(tag);
    ParseUintOfFormatNat(n);
    assert ToUnsigned(n, W64) == n;
    assert FieldValue(fields[i], e) == Literal(fields[i].typ, tag);
  }

  /** A literal tag on a bool field is read by ParseBool. */
  lemma BoolLiteral(fields: seq<FieldDecl>, e: ErrPack, i: nat)
    requires Packable(fields) && i < |fields|
    requires fields[i].typ == GoBool && fields[i].tag !in {"", MsgTag, CodeTag}
    ensures PackedValues(fields, e)[i] == BoolVal(fields[i].tag in TrueLiterals)
  {
  }

  /** A literal its field's parser rejects as a syntax error leaves the field zero. */
  lemma InvalidLiteralIsZero(fields: seq<FieldDecl>, e: ErrPack, i: nat)
    requires Packable(fields) && i < |fields|
    requires fields[i].tag !in {"", MsgTag, CodeTag}
    requires (IsSigned(fields[i].typ) && ParseIntSpec(fields[i].tag).status == ErrSyntax) ||
             (IsUnsigned(fields[i].typ) && ParseUintSpec(fields[i].tag).status == ErrSyntax) ||
             (fields[i].typ == GoBool && ParseBool(fields[i].tag).status == ErrSyntax)
    ensures PackedValues(fields, e)[i] == Zero(fields[i].typ)
  {
  }

  /** Types outside the packer's switch stay zero under a literal tag. */
  lemma UnhandledTypeIsZero(fields: seq<FieldDecl>, e: ErrPack, i: nat)
    requires Packable(fields) && i < |fields|
    requires fields[i].tag !in {MsgTag, CodeTag}
    requires fields[i].typ in {GoInt8, GoInt16, GoUint8, GoUint16, GoUintptr, GoOther}
    ensures PackedValues(fields, e)[i] == Zero(fields[i].typ)
  {
  }

  // ---------------------------------------------------------------- packer

  /** Packer holds the response value V and rewrites it in Pack. */
  class Packer {
    var v: Struct

    constructor (v0: Struct)
      requires WellTyped(v0)
      ensures v == v0 && WellTyped(v)
    {
      v := v0;
    }

    /** Pack(err): normalise err, fill a fresh zero-valued copy of V from the
        tags, store it in V and return it. */
    method Pack(err: GoError) returns (r: Struct)
      requires WellTyped(v) && Packable(v.fields)
      modifies this
      ensures r == v && WellTyped(v)
      ensures r == Struct(old(v).fields, PackedValues(old(v).fields, Normalize(err)))
    {
      var errPack := Normalize(err);
      var fields := v.fields;
      var copy := new Value[|fields|](i requires 0 <= i < |fields| => Zero(fields[i].typ));
      for i := 0 to |fields|
        invariant forall k :: 0 <= k < i ==> copy[k] == FieldValue(fields[k], errPack)
        invariant forall k :: i <= k < |fields| ==> copy[k] == Zero(fields[k].typ)
      {
        if |fields[i].tag| <= 0 {
          continue;
        }
        copy[i] := FillField(fields[i], errPack);
      }
      PackedIsWellTyped(fields, errPack);
      v := Struct(fields, copy[..]);
      r := v;
    }
  }

  /** The body of Pack's loop for a field with a non-empty tag: the two error
      tags first, then the literal converted by the field's type. */
  method FillField(f: FieldDecl, errPack: ErrPack) returns (val: Value)
    requires f.tag != ""
    requires f.tag == MsgTag ==> f.typ == GoString
    requires f.tag == CodeTag ==> IsSigned(f.typ)
    ensures val == FieldValue(f, errPack)
    ensures HasType(val, f.typ)
  {
    var tag := f.tag;
    if tag == MsgTag {
      return StrVal(errPack.msg);
    }
    if tag == CodeTag {
      return IntVal(ToSigned(errPack.code, WidthOf(f.typ)));
    }
    match f.typ
    case GoString =>
      val := StrVal(tag);
    case GoInt | GoInt32 | GoInt64 =>
      var parsed := ParseInt(tag);
      val := IntVal(ToSigned(parsed.value, WidthOf(f.typ)));
    case GoUint | GoUint32 | GoUint64 =>
      var parsed := ParseUint(tag);
      val := UintVal(ToUnsigned(parsed.value, WidthOf(f.typ)));
    case GoBool =>
      var parsed := ParseBool(tag);
      val := BoolVal(parsed.value);
    case GoFloat32 | GoFloat64 =>
      val := FloatVal(FloatFromLiteral(tag));
    case _ =>
      // other types keep the zero value of the fresh copy
      val := Zero(f.typ);
  }

  // ---------------------------------------------------------------- example

  /** The example response type: Seq (int64, tag "-1"), Code (int64, err.code),
      Msg (string, err.msg) and User (a pointer, empty tag). */
  const UserLoginResp: seq<FieldDecl> := [
    FieldDecl("Seq", GoInt64, true, "-1"),
    FieldDecl("Code", GoInt64, true, CodeTag),
    FieldDecl("Msg", GoString, true, MsgTag),
    FieldDecl("User", GoOther, true, "")
  ]

  /** Packing the example with ErrInputBody gives seq -1, code 4102, the
      body error's message and a nil user. */
  lemma UserLoginRespWithInputBody()
    ensures Packable(UserLoginResp)
    ensures PackedValues(UserLoginResp, Normalize(PackErr(ErrInputBody))) ==
      [IntVal(-1), IntVal(4102), StrVal("input body error"), OtherVal(0)]
  {
    assert FormatInt(-1) == "-1";
    ParseIntOfFormatInt(-1);
    assert Normalize(PackErr(ErrInputBody)) == ErrInputBody;
  }

  /** A handler in the style of the example: pack twice, get the same value. */
  method PackTwice(err: GoError)
  {
    var p := new Packer(Struct(UserLoginResp, [IntVal(7), IntVal(0), StrVal("stale"), OtherVal(3)]));
    var first := p.Pack(err);
    var second := p.Pack(err);
    assert first == second;
    assert first.values[3] == OtherVal(0);
  }
}
