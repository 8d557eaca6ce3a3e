/** format_decode() of vsprintf.c: one token of a format string after another. */
module Formats {
  datatype FormatType =
    | Plain | Width | Precision | Char | Str | Ptr | PercentChar | Invalid | LongLong | ULong | Long
    | UByte | SByte | UShort | Short | UInt | Int | NrChars | SizeT | PtrDiff

  datatype Flags = Flags(zeropad: bool, sign: bool, plus: bool, space: bool, left: bool, small: bool, special: bool)

  /** struct printf_spec */
  datatype Spec = Spec(ty: FormatType, flags: Flags, base: nat, qualifier: char, fieldWidth: int, precision: int)

  const NO_FLAGS: Flags := Flags(false, false, false, false, false, false, false)

  /** The qualifier -1, as an unsigned byte. */
  const NO_QUALIFIER: char := 255 as char

  /** Conversion to a 16-bit signed field. */
  function S16(x: int): (y: int)
    ensures -32768 <= y <= 32767 && (-32768 <= x <= 32767 ==> y == x)
    decreases if x > 32767 then x - 32767 else if x < -32768 then -32768 - x else 0
  {
    if x > 32767 then S16(x - 65536) else if x < -32768 then S16(x + 65536) else x
  }

  /** The character at a position; the format ends with NUL. */
  function At(fmt: string, i: nat): char {
    if i < |fmt| then fmt[i] else '\0'
  }

  predicate IsDigit(c: char) {
    '0' <= c <= '9'
  }

  predicate IsAlnum(c: char) {
    IsDigit(c) || 'a' <= c <= 'z' || 'A' <= c <= 'Z'
  }

  function ToLower(c: char): char {
    if 'A' <= c <= 'Z' then (c as int + 32) as char else c
  }

  // ---------- the loops ----------

  /** Where the literal text from i on ends. */
  function LiteralEnd(fmt: string, i: nat): (j: nat)
    requires i <= |fmt|
    ensures i <= j <= |fmt| && (j < |fmt| ==> fmt[j] == '%') && '%' !in fmt[i..j]
    decreases |fmt| - i
  {
    if i == |fmt| || fmt[i] == '%' then i else LiteralEnd(fmt, i + 1)
  }

  function AddFlag(flags: Flags, c: char): Flags {
    match c
    case '-' => flags.(left := true)
    case '+' => flags.(plus := true)
    case ' ' => flags.(space := true)
    case '#' => flags.(special := true)
    case '0' => flags.(zeropad := true)
    case _ => flags
  }

  predicate IsFlag(c: char) {
    c == '-' || c == '+' || c == ' ' || c == '#' || c == '0'
  }

  function FlagsEnd(fmt: string, i: nat): (j: nat)
    requires i <= |fmt|
    ensures i <= j <= |fmt|
    decreases |fmt| - i
  {
    if i < |fmt| && IsFlag(fmt[i]) then FlagsEnd(fmt, i + 1) else i
  }

  function FlagsFrom(fmt: string, i: nat, flags: Flags): Flags
    requires i <= |fmt|
    decreases |fmt| - i
  {
    if i < |fmt| && IsFlag(fmt[i]) then FlagsFrom(fmt, i + 1, AddFlag(flags, fmt[i])) else flags
  }

  function DigitsEnd(fmt: string, i: nat): (j: nat)
    requires i <= |fmt|
    ensures i <= j <= |fmt|
    decreases |fmt| - i
  {
    if i < |fmt| && IsDigit(fmt[i]) then DigitsEnd(fmt, i + 1) else i
  }

  /** skip_atoi() */
  function Atoi(fmt: string, i: nat, acc: nat): nat
    requires i <= |fmt|
    decreases |fmt| - i
  {
    if i < |fmt| && IsDigit(fmt[i]) then Atoi(fmt, i + 1, acc * 10 + (fmt[i] as nat - '0' as nat)) else acc
  }

  function AlnumEnd(fmt: string, i: nat): (j: nat)
    requires i <= |fmt|
    ensures i <= j <= |fmt| && (i < |fmt| && IsAlnum(fmt[i]) ==> i < j)
    decreases |fmt| - i
  {
    if i < |fmt| && IsAlnum(fmt[i]) then AlnumEnd(fmt, i + 1) else i
  }

  // ---------- one token ----------

  datatype Token = Token(next: nat, spec: Spec)

  /** The type of an integer conversion. */
  function IntegerType(q: char, signed: bool): FormatType {
    if q == 'L' then LongLong
    else if q == 'l' then if signed then Long else ULong
    else if ToLower(q) == 'z' then SizeT
    else if q == 't' then PtrDiff
    else if q == 'H' then if signed then SByte else UByte
    else if q == 'h' then if signed then Short else UShort
    else if signed then Int else UInt
  }

  /** The 16-bit fields. */
  predicate Ranges(spec: Spec) {
    -32768 <= spec.fieldWidth <= 32767 && -32768 <= spec.precision <= 32767
  }

  predicate KnownBase(spec: Spec) {
    spec.base == 8 || spec.base == 10 || spec.base == 16
  }

  /** The conversion character. */
  function DecodeConversion(fmt: string, i: nat, spec0: Spec): (t: Token)
    requires i <= |fmt|
    ensures i <= t.next <= |fmt| && !t.spec.ty.Width? && !t.spec.ty.Precision?
    ensures t.next == i ==> t.spec.ty.Invalid? || (t.spec.ty.Ptr? && i < |fmt| && fmt[i] == 'p')
    ensures !t.spec.ty.Plain? && KnownBase(t.spec)
    ensures t.spec.fieldWidth == spec0.fieldWidth && t.spec.precision == spec0.precision
  {
    var spec := spec0.(base := 10);
    match At(fmt, i)
    case 'c' => Token(i + 1, spec.(ty := Char))
    case 's' => Token(i + 1, spec.(ty := Str))
    case 'p' => Token(i, spec.(ty := Ptr))
    case 'n' => Token(i + 1, spec.(ty := NrChars))
    case '%' => Token(i + 1, spec.(ty := PercentChar))
    case 'o' => Token(i + 1, spec.(base := 8, ty := IntegerType(spec.qualifier, spec.flags.sign)))
    case 'x' =>
      Token(i + 1, spec.(base := 16, flags := spec.flags.(small := true),
                         ty := IntegerType(spec.qualifier, spec.flags.sign)))
    case 'X' => Token(i + 1, spec.(base := 16, ty := IntegerType(spec.qualifier, spec.flags.sign)))
    case 'd' => Token(i + 1, spec.(flags := spec.flags.(sign := true), ty := IntegerType(spec.qualifier, true)))
    case 'i' => Token(i + 1, spec.(flags := spec.flags.(sign := true), ty := IntegerType(spec.qualifier, true)))
    case 'u' => Token(i + 1, spec.(ty := IntegerType(spec.qualifier, spec.flags.sign)))
    case _ => Token(i, spec.(ty := Invalid))
  }

  predicate IsQualifier(c: char) {
    c == 'h' || ToLower(c) == 'l' || ToLower(c) == 'z' || c == 't'
  }

  /** From the label qualifier on. */
  function DecodeQualifier(fmt: string, i: nat, spec: Spec): (t: Token)
    requires i <= |fmt|
    ensures i <= t.next <= |fmt| && !t.spec.ty.Width? && !t.spec.ty.Precision? && !t.spec.ty.Plain?
    ensures KnownBase(t.spec)
    ensures t.spec.fieldWidth == spec.fieldWidth && t.spec.precision == spec.precision
    ensures t.next == i ==> t.spec.ty.Invalid? || (t.spec.ty.Ptr? && i < |fmt| && fmt[i] == 'p')
    ensures t.spec.ty.Ptr? ==> t.next < |fmt| && fmt[t.next] == 'p'
  {
    if i < |fmt| && IsQualifier(fmt[i]) then
      var q := fmt[i];
      if q == At(fmt, i + 1) && q == 'l' then DecodeConversion(fmt, i + 2, spec.(qualifier := 'L'))
      else if q == At(fmt, i + 1) && q == 'h' then DecodeConversion(fmt, i + 2, spec.(qualifier := 'H'))
      else DecodeConversion(fmt, i + 1, spec.(qualifier := q))
    else DecodeConversion(fmt, i, spec.(qualifier := NO_QUALIFIER))
  }

  /** From the label precision on. */
  function DecodePrecision(fmt: string, i: nat, spec: Spec): (t: Token)
    requires i <= |fmt|
    ensures i <= t.next <= |fmt| && !t.spec.ty.Width? && !t.spec.ty.Plain?
    ensures t.spec.ty.Precision? || KnownBase(t.spec)
    ensures t.spec.fieldWidth == spec.fieldWidth && -1 <= t.spec.precision <= 32767
    ensures t.next == i ==> t.spec.ty.Invalid? || (t.spec.ty.Ptr? && i < |fmt| && fmt[i] == 'p')
    ensures t.spec.ty.Ptr? ==> t.next < |fmt| && fmt[t.next] == 'p'
  {
    if At(fmt, i) != '.' then DecodeQualifier(fmt, i, spec.(precision := -1))
    else if IsDigit(At(fmt, i + 1)) then
      var p := S16(Atoi(fmt, i + 1, 0));
      DecodeQualifier(fmt, DigitsEnd(fmt, i + 1), spec.(precision := if p < 0 then 0 else p))
    else if At(fmt, i + 1) == '*' then Token(i + 2, spec.(precision := -1, ty := Precision))
    else DecodeQualifier(fmt, i + 1, spec.(precision := -1))
  }

  /** From the flags on, after a percent sign. */
  function DecodeFlags(fmt: string, i: nat, spec0: Spec): (t: Token)
    requires i <= |fmt|
    ensures i <= t.next <= |fmt| && !t.spec.ty.Plain?
    ensures t.spec.ty.Width? || t.spec.ty.Precision? || KnownBase(t.spec)
    ensures Ranges(spec0) ==> Ranges(t.spec) && (t.spec.ty.Width? || -1 <= t.spec.precision)
    ensures t.spec.ty.Ptr? ==> t.next < |fmt| && fmt[t.next] == 'p'
  {
    var j := FlagsEnd(fmt, i);
    var spec := spec0.(flags := FlagsFrom(fmt, i, NO_FLAGS), fieldWidth := -1, ty := Plain);
    if IsDigit(At(fmt, j)) then
      DecodePrecision(fmt, DigitsEnd(fmt, j), spec.(fieldWidth := S16(Atoi(fmt, j, 0))))
    else if At(fmt, j) == '*' then Token(j + 1, spec.(ty := Width))
    else DecodePrecision(fmt, j, spec)
  }

  /** By default: literal text up to the next percent sign, or a conversion. */
  function DecodeDefault(fmt: string, i: nat, spec: Spec): (t: Token)
    requires i < |fmt|
    ensures i < t.next <= |fmt|
    ensures t.spec.ty.Plain? || t.spec.ty.Width? || t.spec.ty.Precision? || KnownBase(t.spec)
    ensures Ranges(spec) ==> Ranges(t.spec) && (t.spec.ty.Plain? || t.spec.ty.Width? || -1 <= t.spec.precision)
    ensures t.spec.ty.Ptr? ==> t.next < |fmt| && fmt[t.next] == 'p'
  {
    if fmt[i] != '%' then Token(LiteralEnd(fmt, i), spec.(ty := Plain))
    else DecodeFlags(fmt, i + 1, spec.(ty := Plain))
  }

  /** The width has been read: a negative one justifies to the left. */
  function WithWidth(spec: Spec): Spec {
    if spec.fieldWidth < 0
    then spec.(fieldWidth := S16(-spec.fieldWidth), flags := spec.flags.(left := true), ty := Plain)
    else spec.(ty := Plain)
  }

  /** The precision has been read: a negative one counts as zero. */
  function WithPrecision(spec: Spec): Spec {
    if spec.precision < 0 then spec.(precision := 0, ty := Plain) else spec.(ty := Plain)
  }

  /** An argument is still to come. */
  predicate Waiting(spec: Spec) {
    spec.ty.Width? || spec.ty.Precision?
  }

  /** format_decode(). It may consume nothing, but only right after a '*'. */
  function Decode(fmt: string, i: nat, spec: Spec): (t: Token)
    requires i < |fmt|
    ensures i <= t.next <= |fmt|
    ensures t.spec.ty.Plain? || Waiting(t.spec) || KnownBase(t.spec)
    ensures Ranges(spec) ==> Ranges(t.spec) && (t.spec.ty.Plain? || t.spec.ty.Width? || -1 <= t.spec.precision)
    ensures t.next == i ==> Waiting(spec) && !Waiting(t.spec) && (t.spec.ty.Invalid? || t.spec.ty.Ptr?)
    ensures t.spec.ty.Ptr? ==> t.next < |fmt| && fmt[t.next] == 'p'
  {
    if spec.ty.Width? then
      DecodePrecision(fmt, i, WithWidth(spec))
    else if spec.ty.Precision? then
      DecodeQualifier(fmt, i, WithPrecision(spec))
    else DecodeDefault(fmt, i, spec)
  }

  // ---------- the same with loops ----------

  method SkipLiteral(fmt: string, i: nat) returns (j: nat)
    requires i <= |fmt|
    ensures j == LiteralEnd(fmt, i)
  {
    j := i;
    while j < |fmt| && fmt[j] != '%'
      invariant i <= j <= |fmt| && LiteralEnd(fmt, j) == LiteralEnd(fmt, i)
    {
      j := j + 1;
    }
  }

  method ReadFlags(fmt: string, i: nat) returns (j: nat, flags: Flags)
    requires i <= |fmt|
    ensures j == FlagsEnd(fmt, i) && flags == FlagsFrom(fmt, i, NO_FLAGS)
  {
    j, flags := i, NO_FLAGS;
    while j < |fmt| && IsFlag(fmt[j])
      invariant i <= j <= |fmt| && FlagsEnd(fmt, j) == FlagsEnd(fmt, i)
      invariant FlagsFrom(fmt, j, flags) == FlagsFrom(fmt, i, NO_FLAGS)
    {
      flags := AddFlag(flags, fmt[j]);
      j := j + 1;
    }
  }

  method SkipAtoi(fmt: string, i: nat) returns (j: nat, n: nat)
    requires i <= |fmt|
    ensures j == DigitsEnd(fmt, i) && n == Atoi(fmt, i, 0)
  {
    j, n := i, 0;
    while j < |fmt| && IsDigit(fmt[j])
      invariant i <= j <= |fmt| && DigitsEnd(fmt, j) == DigitsEnd(fmt, i)
      invariant Atoi(fmt, j, n) == Atoi(fmt, i, 0)
    {
      n := n * 10 + (fmt[j] as nat - '0' as nat);
      j := j + 1;
    }
  }

  method SkipAlnum(fmt: string, i: nat) returns (j: nat)
    requires i <= |fmt|
    ensures j == AlnumEnd(fmt, i)
  {
    j := i;
    while j < |fmt| && IsAlnum(fmt[j])
      invariant i <= j <= |fmt| && AlnumEnd(fmt, j) == AlnumEnd(fmt, i)
    {
      j := j + 1;
    }
  }

  /** The part of format_decode() from the label precision on. */
  method ReadPrecision(fmt: string, i0: nat, spec0: Spec) returns (i: nat, spec: Spec)
    requires i0 <= |fmt|
    ensures Token(i, spec) == DecodePrecision(fmt, i0, spec0)
  {
    i, spec := i0, spec0.(precision := -1);
    if At(fmt, i) == '.' {
      i := i + 1;
      if IsDigit(At(fmt, i)) {
        var n;
        i, n := SkipAtoi(fmt, i);
        spec := spec.(precision := S16(n));
        if spec.precision < 0 {
          spec := spec.(precision := 0);
        }
      } else if At(fmt, i) == '*' {
        return i + 1, spec.(ty := Precision);
      }
    }
    var t := DecodeQualifier(fmt, i, spec);
    return t.next, t.spec;
  }

  /** Its part after a percent sign. */
  method ReadSpecification(fmt: string, start: nat, spec0: Spec) returns (i: nat, spec: Spec)
    requires start <= |fmt|
    ensures Token(i, spec) == DecodeFlags(fmt, start, spec0)
  {
    var flags;
    i, flags := ReadFlags(fmt, start);
    spec := spec0.(flags := flags, fieldWidth := -1, ty := Plain);
    if IsDigit(At(fmt, i)) {
      var n;
      i, n := SkipAtoi(fmt, i);
      spec := spec.(fieldWidth := S16(n));
    } else if At(fmt, i) == '*' {
      return i + 1, spec.(ty := Width);
    }
    i, spec := ReadPrecision(fmt, i, spec);
  }

  /** Its part that starts a new token. */
  method ReadDefault(fmt: string, start: nat, spec0: Spec) returns (i: nat, spec: Spec)
    requires start < |fmt|
    ensures Token(i, spec) == DecodeDefault(fmt, start, spec0)
  {
    spec := spec0.(ty := Plain);
    i := SkipLiteral(fmt, start);
    if i == start {
      i, spec := ReadSpecification(fmt, i + 1, spec);
    }
  }

  /** format_decode() */
  method FormatDecode(fmt: string, start: nat, spec0: Spec) returns (i: nat, spec: Spec)
    requires start < |fmt|
    ensures Token(i, spec) == Decode(fmt, start, spec0)
  {
    if spec0.ty.Width? {
      i, spec := ReadPrecision(fmt, start, WithWidth(spec0));
    } else if spec0.ty.Precision? {
      var t := DecodeQualifier(fmt, start, WithPrecision(spec0));
      i, spec := t.next, t.spec;
    } else {
      i, spec := ReadDefault(fmt, start, spec0);
    }
  }
}
