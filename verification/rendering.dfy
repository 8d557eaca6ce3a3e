/** What vsprintf.c writes when the buffer is long enough, and how fields are laid out. */
module Rendering {
  import opened Decimal
  import opened Formats

  const WORD64: nat := 0x1_0000_0000_0000_0000

  /** A variadic argument: its 64 bits, and the string they point to if they are a pointer to one. */
  datatype Arg = Arg(word: nat, text: string)

  const PAGE: nat := 4096

  function Fill(c: char, n: nat): (s: string)
    ensures |s| == n && forall i :: 0 <= i < n ==> s[i] == c
  {
    seq(n, i => c)
  }

  // ---------- the countdown loops on 16-bit fields ----------

  /** How often while (--w >= 0) runs its body, and w after it. */
  function Rounds(w: int): nat {
    if S16(w - 1) >= 0 then S16(w - 1) + 1 else 0
  }

  function AfterRounds(w: int): int {
    if S16(w - 1) >= 0 then -1 else S16(w - 1)
  }

  /** How often while (--w > 0) runs its body, and w after it. */
  function StrictRounds(w: int): nat {
    if S16(w - 1) > 0 then S16(w - 1) else 0
  }

  function AfterStrictRounds(w: int): int {
    if S16(w - 1) > 0 then 0 else S16(w - 1)
  }

  /** How often while (len < w--) runs its body, and w after it. */
  function TrailingRounds(len: nat, w: int): nat {
    if len < w then w - len else 0
  }

  function AfterTrailingRounds(len: nat, w: int): int {
    if len < w then S16(len - 1) else S16(w - 1)
  }

  // ---------- number() ----------

  function DigitIn(d: nat, small: bool): char
    requires d < 16
  {
    if d < 10 then '0' + d as char else (if small then 'a' else 'A') + (d - 10) as char
  }

  /** The digits of n in base 8 or 16, least significant first. */
  function DigitsIn(base: nat, small: bool, n: nat): seq<char>
    requires base == 8 || base == 16
    decreases n
  {
    if n < base then [DigitIn(n, small)] else [DigitIn(n % base, small)] + DigitsIn(base, small, n / base)
  }

  function Reverse(s: string): (r: string)
    ensures |r| == |s| && forall i :: 0 <= i < |s| ==> r[i] == s[|s| - 1 - i]
  {
    seq(|s|, i requires 0 <= i < |s| => s[|s| - 1 - i])
  }

  predicate Negative(num: nat, spec: Spec) {
    spec.flags.sign && num >= WORD64 / 2
  }

  function Magnitude(num: nat, spec: Spec): nat
    requires num < WORD64
  {
    if Negative(num, spec) then WORD64 - num else num
  }

  function SignText(num: nat, spec: Spec): string {
    if !spec.flags.sign then ""
    else if num >= WORD64 / 2 then "-"
    else if spec.flags.plus then "+"
    else if spec.flags.space then " "
    else ""
  }

  predicate HasPrefix(spec: Spec) {
    spec.flags.special && spec.base != 10
  }

  function PrefixText(spec: Spec): string {
    if !HasPrefix(spec) then ""
    else if spec.base == 16 then ['0', if spec.flags.small then 'x' else 'X']
    else "0"
  }

  /** The digits of a number in reverse order, as generated in tmp[]. */
  function NumberDigits(num: nat, spec: Spec): seq<char>
    requires num < WORD64 && KnownBase(spec)
  {
    var n := Magnitude(num, spec);
    if spec.base == 10 then Digits(n) else DigitsIn(spec.base, spec.flags.small, n)
  }

  function Max(a: int, b: int): int {
    if a > b then a else b
  }

  /** The precision that counts: no digit is dropped. */
  function FullPrecision(digits: nat, spec: Spec): int {
    Max(digits, spec.precision)
  }

  /** A 16-bit width decremented k times. */
  function Shrunk(width: int, k: nat): int {
    if k == 0 then width else S16(Shrunk(width, k - 1) - 1)
  }

  /** The field width left after sign, prefix and digits, in 16 bits. */
  function Room(num: nat, spec: Spec): int
    requires num < WORD64 && KnownBase(spec)
  {
    S16(Shrunk(spec.fieldWidth, |SignText(num, spec)| + |PrefixText(spec)|) -
        FullPrecision(|NumberDigits(num, spec)|, spec))
  }

  predicate Zeros(spec: Spec) {
    spec.flags.zeropad && !spec.flags.left
  }

  /** The loops that pad, one after another. */
  function LeadWidth(spec: Spec, room: int): nat {
    if !spec.flags.zeropad && !spec.flags.left then Rounds(room) else 0
  }

  function AfterLead(spec: Spec, room: int): int {
    if !spec.flags.zeropad && !spec.flags.left then AfterRounds(room) else room
  }

  function MiddleWidth(spec: Spec, room: int): nat {
    if !spec.flags.left then Rounds(AfterLead(spec, room)) else 0
  }

  function AfterMiddle(spec: Spec, room: int): int {
    if !spec.flags.left then AfterRounds(AfterLead(spec, room)) else AfterLead(spec, room)
  }

  function MiddleChar(spec: Spec): char {
    if Zeros(spec) then '0' else ' '
  }

  /** What number() writes. */
  function NumberText(num: nat, spec: Spec): string
    requires num < WORD64 && KnownBase(spec)
  {
    var room := Room(num, spec);
    var digits := NumberDigits(num, spec);
    Fill(' ', LeadWidth(spec, room)) + SignText(num, spec) + PrefixText(spec) +
      Fill(MiddleChar(spec), MiddleWidth(spec, room)) +
      Fill('0', FullPrecision(|digits|, spec) - |digits|) + Reverse(digits) +
      Fill(' ', Rounds(AfterMiddle(spec, room)))
  }

  // ---------- the layout of a number ----------

  /** The characters a number needs. */
  function Needed(num: nat, spec: Spec): nat
    requires num < WORD64 && KnownBase(spec)
  {
    |SignText(num, spec)| + |PrefixText(spec)| + FullPrecision(|NumberDigits(num, spec)|, spec)
  }

  /** How many of the padding loops run. */
  function Loops(spec: Spec): nat {
    if spec.flags.left then 1 else if spec.flags.zeropad then 2 else 3
  }

  predicate Field16(spec: Spec) {
    -32768 <= spec.fieldWidth <= 32767 && -1 <= spec.precision <= 32767
  }

  lemma Period(x: int)
    ensures S16(x + 65536) == S16(x)
  {
  }

  lemma {:induction false} WrapTwice(x: int, y: int)
    ensures S16(S16(x) - y) == S16(x - y)
    decreases if x > 32767 then x - 32767 else if x < -32768 then -32768 - x else 0
  {
    if x > 32767 {
      WrapTwice(x - 65536, y);
      Period(x - 65536 - y);
    } else if x < -32768 {
      WrapTwice(x + 65536, y);
      Period(x - y);
    }
  }

  lemma {:induction false} DigitCount(n: nat, k: nat)
    requires k > 0 && n < Pow10(k)
    ensures |Digits(n)| <= k
    decreases k
  {
    if n >= 10 {
      DigitCount(n / 10, k - 1);
    }
  }

  function PowBase(base: nat, k: nat): nat {
    if k == 0 then 1 else base * PowBase(base, k - 1)
  }

  lemma {:induction false} DigitInCount(base: nat, small: bool, n: nat, k: nat)
    requires (base == 8 || base == 16) && k > 0 && n < PowBase(base, k)
    ensures 0 < |DigitsIn(base, small, n)| <= k
    decreases k
  {
    if n >= base {
      DigitInCount(base, small, n / base, k - 1);
    }
  }

  /** 64 bits make at most 22 digits. */
  lemma FewDigits(num: nat, spec: Spec)
    requires num < WORD64 && KnownBase(spec)
    ensures 0 < |NumberDigits(num, spec)| <= 22
  {
    var n := Magnitude(num, spec);
    if spec.base == 10 {
      assert Pow10(5) == 100000 && Pow10(10) == 10000000000 && Pow10(15) == 1000000000000000;
      assert Pow10(20) == 100000000000000000000;
      DigitCount(n, 20);
      DigitsValue(n);
    } else if spec.base == 8 {
      assert PowBase(8, 5) == 32768 && PowBase(8, 10) == 1073741824 && PowBase(8, 15) == 35184372088832;
      assert PowBase(8, 20) == 1152921504606846976 && PowBase(8, 22) == 73786976294838206464;
      DigitInCount(8, spec.flags.small, n, 22);
    } else {
      assert PowBase(16, 5) == 1048576 && PowBase(16, 10) == 1099511627776;
      assert PowBase(16, 15) == 1152921504606846976 && PowBase(16, 16) == 18446744073709551616;
      DigitInCount(16, spec.flags.small, n, 16);
    }
  }

  lemma {:induction false} ShrunkIs(width: int, k: nat)
    requires -32768 <= width <= 32767
    ensures Shrunk(width, k) == S16(width - k)
  {
    if k > 0 {
      ShrunkIs(width, k - 1);
      WrapTwice(width - (k - 1), 1);
    }
  }

  lemma RoomIs(num: nat, spec: Spec)
    requires num < WORD64 && KnownBase(spec) && Field16(spec)
    ensures Room(num, spec) == S16(spec.fieldWidth - Needed(num, spec))
  {
    var k := |SignText(num, spec)| + |PrefixText(spec)|;
    var prec := FullPrecision(|NumberDigits(num, spec)|, spec);
    ShrunkIs(spec.fieldWidth, k);
    WrapTwice(spec.fieldWidth - k, prec);
  }

  /** The padding the loops write from a given room. */
  function Padding(spec: Spec, room: int): nat {
    LeadWidth(spec, room) + MiddleWidth(spec, room) + Rounds(AfterMiddle(spec, room))
  }

  /** The 16-bit counter, x below zero, does not wrap to a positive one as the loops count it down. */
  predicate NoWrap(spec: Spec, x: int) {
    x >= -32768 + Loops(spec) || x <= -65536
  }

  /** The number of characters is what the field asks for, exactly as long as no 16-bit counter wraps. */
  lemma NumberLength(num: nat, spec: Spec)
    requires num < WORD64 && KnownBase(spec) && Field16(spec)
    ensures |NumberText(num, spec)| == Needed(num, spec) + Padding(spec, Room(num, spec))
    ensures |NumberText(num, spec)| == Max(Needed(num, spec), spec.fieldWidth) <==>
      NoWrap(spec, spec.fieldWidth - Needed(num, spec))
  {
    RoomIs(num, spec);
    FewDigits(num, spec);
    PaddingIs(spec, spec.fieldWidth - Needed(num, spec));
  }

  lemma PaddingIs(spec: Spec, x: int)
    requires -65600 <= x <= 32767
    ensures Padding(spec, S16(x)) == Max(0, x) <==> NoWrap(spec, x)
  {
    var y := S16(x);
    if x < -32768 {
      assert y == x + 65536;
    }
  }

  /** The text of a number in a field: blanks, sign, prefix, zeros, digits, blanks. Blanks or zeros fill the
      field on the side the flags ask for, and the digits stand for the number. */
  lemma NumberLayout(num: nat, spec: Spec)
    requires num < WORD64 && KnownBase(spec) && Field16(spec)
    requires spec.fieldWidth - Needed(num, spec) >= -32768 + Loops(spec)
    ensures var fill := Max(0, spec.fieldWidth - Needed(num, spec));
      var digits := NumberDigits(num, spec);
      NumberText(num, spec) ==
        Fill(' ', if spec.flags.left || spec.flags.zeropad then 0 else fill) +
        SignText(num, spec) + PrefixText(spec) +
        Fill('0', (if Zeros(spec) then fill else 0) + (FullPrecision(|digits|, spec) - |digits|)) +
        Reverse(digits) + Fill(' ', if spec.flags.left then fill else 0)
  {
    var x := spec.fieldWidth - Needed(num, spec);
    RoomIs(num, spec);
    FewDigits(num, spec);
    LoopsAre(spec, x);
    var fill, more := Max(0, x), FullPrecision(|NumberDigits(num, spec)|, spec) - |NumberDigits(num, spec)|;
    var head, middle := Fill(' ', LeadWidth(spec, x)) + SignText(num, spec) + PrefixText(spec),
                        Fill(MiddleChar(spec), MiddleWidth(spec, x));
    Joined(MiddleChar(spec), MiddleWidth(spec, x), more);
    Associated(head, middle, Fill('0', more));
    var digits := Reverse(NumberDigits(num, spec));
    assert Room(num, spec) == x;
    assert NumberText(num, spec) == head + middle + Fill('0', more) + digits + Fill(' ', Rounds(AfterMiddle(spec, x)));
    assert middle + Fill('0', more) == Fill('0', (if Zeros(spec) then fill else 0) + more);
    assert LeadWidth(spec, x) == if spec.flags.left || spec.flags.zeropad then 0 else fill;
  }

  lemma Joined(c: char, k: nat, n: nat)
    requires k == 0 || c == '0'
    ensures Fill(c, k) + Fill('0', n) == Fill('0', k + n)
  {
  }

  lemma Associated(a: string, b: string, c: string)
    ensures a + b + c == a + (b + c)
  {
  }

  lemma LoopsAre(spec: Spec, x: int)
    requires -32768 + Loops(spec) <= x <= 32767
    ensures var fill := Max(0, x);
      && S16(x) == x
      && LeadWidth(spec, x) == (if spec.flags.left || spec.flags.zeropad then 0 else fill)
      && MiddleWidth(spec, x) == (if Zeros(spec) then fill else 0)
      && Rounds(AfterMiddle(spec, x)) == (if spec.flags.left then fill else 0)
  {
  }

  /** The value of a digit in base 16. */
  function DigitValue(c: char): nat {
    if '0' <= c <= '9' then c as nat - '0' as nat
    else if 'a' <= c <= 'f' then c as nat - 'a' as nat + 10
    else if 'A' <= c <= 'F' then c as nat - 'A' as nat + 10
    else 0
  }

  function ValueIn(base: nat, s: string): nat {
    if s == [] then 0 else DigitValue(s[0]) + base * ValueIn(base, s[1..])
  }

  lemma ValueMore(base: nat, small: bool, n: nat, q: nat, c: char, rest: string, ds: string)
    requires (base == 8 || base == 16) && q == n / base && c == DigitIn(n % base, small) && ds == [c] + rest
    requires ValueIn(base, rest) == q && |rest| > 0
    ensures ValueIn(base, ds) == n && ds[|ds| - 1] == rest[|rest| - 1]
  {
    assert ds[1..] == rest;
    if base == 8 {
      assert ValueIn(8, ds) == n % 8 + 8 * q;
    } else {
      assert ValueIn(16, ds) == n % 16 + 16 * q;
    }
  }

  lemma {:induction false} DigitsInValue(base: nat, small: bool, n: nat)
    requires base == 8 || base == 16
    ensures ValueIn(base, DigitsIn(base, small, n)) == n && |DigitsIn(base, small, n)| > 0
    ensures n > 0 ==> DigitsIn(base, small, n)[|DigitsIn(base, small, n)| - 1] != '0'
    decreases n
  {
    var ds := DigitsIn(base, small, n);
    if n >= base {
      var q, c := n / base, DigitIn(n % base, small);
      var rest := DigitsIn(base, small, q);
      assert ds == [c] + rest;
      hide DigitsIn;
      DigitsInValue(base, small, q);
      ValueMore(base, small, n, q, c, rest, ds);
    } else {
      assert ds[1..] == [];
    }
  }

  lemma {:induction false} DecimalValue(s: string)
    requires forall c :: c in s ==> '0' <= c <= '9'
    ensures ValueIn(10, s) == Value(s)
  {
    if s != [] {
      assert s[0] in s && forall c :: c in s[1..] ==> c in s;
      DecimalValue(s[1..]);
    }
  }

  /** The digits a number is printed with evaluate to its magnitude, without leading zeros. */
  lemma NumberValue(num: nat, spec: Spec)
    requires num < WORD64 && KnownBase(spec)
    ensures ValueIn(spec.base, NumberDigits(num, spec)) == Magnitude(num, spec)
    ensures |NumberDigits(num, spec)| > 0
    ensures Magnitude(num, spec) > 0 ==> Reverse(NumberDigits(num, spec))[0] != '0'
  {
    var n := Magnitude(num, spec);
    if spec.base == 10 {
      DigitsValue(n);
      DecimalValue(Digits(n));
    } else {
      DigitsInValue(spec.base, spec.flags.small, n);
    }
  }

  // ---------- strings, characters and pointers ----------

  /** strnlen() with the precision converted to size_t. */
  function Cut(text: string, precision: int): (len: nat)
    ensures len <= |text|
  {
    if 0 <= precision < |text| then precision else |text|
  }

  /** What string() writes. */
  function StringText(text: string, spec: Spec): string {
    var len := Cut(text, spec.precision);
    var lead := if spec.flags.left then 0 else TrailingRounds(len, spec.fieldWidth);
    var w := if spec.flags.left then spec.fieldWidth else AfterTrailingRounds(len, spec.fieldWidth);
    Fill(' ', lead) + text[..len] + Fill(' ', TrailingRounds(len, w))
  }

  /** Its length is what the field asks for, except that a width of -32768 wraps. */
  lemma StringLength(text: string, spec: Spec)
    requires Field16(spec)
    ensures var len := Cut(text, spec.precision);
      |StringText(text, spec)| == Max(len, spec.fieldWidth) <==>
      (spec.flags.left || spec.fieldWidth > -32768 || len >= 32767)
  {
  }

  /** Then blanks fill the field on the side that the flags ask for. */
  lemma StringLayout(text: string, spec: Spec)
    requires Field16(spec) && (spec.flags.left || spec.fieldWidth > -32768 || Cut(text, spec.precision) >= 32767)
    ensures var len := Cut(text, spec.precision);
      var fill := Max(0, spec.fieldWidth - len);
      StringText(text, spec) ==
        Fill(' ', if spec.flags.left then 0 else fill) + text[..len] + Fill(' ', if spec.flags.left then fill else 0)
  {
  }

  /** A pointer below the first page is printed as (null). */
  function TextOf(arg: Arg): string {
    if arg.word < PAGE then "(null)" else arg.text
  }

  /** What the conversion c writes. */
  function CharText(c: char, spec: Spec): string {
    var lead := if spec.flags.left then 0 else StrictRounds(spec.fieldWidth);
    var w := if spec.flags.left then spec.fieldWidth else AfterStrictRounds(spec.fieldWidth);
    Fill(' ', lead) + [c] + Fill(' ', StrictRounds(w))
  }

  /** A character fills its field in the same way, except that the lowest widths wrap. */
  lemma CharLayout(c: char, spec: Spec)
    requires Field16(spec)
    ensures var fill := Max(1, spec.fieldWidth) - 1;
      CharText(c, spec) ==
        Fill(' ', if spec.flags.left then 0 else fill) + [c] + Fill(' ', if spec.flags.left then fill else 0)
      <==> spec.fieldWidth > if spec.flags.left then -32768 else -32767
  {
    var w := spec.fieldWidth;
    if w == -32768 || (!spec.flags.left && w == -32767) {
      assert |CharText(c, spec)| > 1;
    }
  }

  function PointerSpec(spec: Spec): Spec {
    if spec.fieldWidth == -1
    then spec.(fieldWidth := 16, base := 16, flags := spec.flags.(small := true, zeropad := true))
    else spec.(base := 16, flags := spec.flags.(small := true))
  }

  function NullSpec(spec: Spec): Spec {
    if spec.fieldWidth == -1 then spec.(fieldWidth := 16) else spec
  }

  /** What pointer() writes. */
  function PointerText(word: nat, spec: Spec): string
    requires word < WORD64
  {
    if word == 0 then StringText("(null)", NullSpec(spec)) else NumberText(word, PointerSpec(spec))
  }

  // ---------- arguments ----------

  function Signed(x: nat, bits: nat): int {
    if x < bits / 2 then x else x - bits
  }

  function Unsigned64(x: int): nat {
    x % WORD64
  }

  /** (int) of an argument. */
  function AsInt(word: nat): int {
    Signed(word % 0x1_0000_0000, 0x1_0000_0000)
  }

  /** The 64-bit number that number() receives for an argument. */
  function NumberArg(ty: FormatType, word: nat): (num: nat)
    ensures num < WORD64
  {
    match ty
    case LongLong => word % WORD64
    case ULong => word % WORD64
    case Long => word % WORD64
    case SizeT => word % WORD64
    case PtrDiff => word % WORD64
    case UByte => word % 256
    case SByte => Unsigned64(Signed(word % 256, 256))
    case UShort => word % 65536
    case Short => Unsigned64(Signed(word % 65536, 65536))
    case Int => Unsigned64(AsInt(word))
    case _ => word % 0x1_0000_0000
  }

  predicate IsInteger(ty: FormatType) {
    ty.LongLong? || ty.ULong? || ty.Long? || ty.SizeT? || ty.PtrDiff? || ty.UByte? || ty.SByte? || ty.UShort?
    || ty.Short? || ty.Int? || ty.UInt?
  }

  // ---------- a whole format ----------

  /** A token, where it starts, and the next argument. */
  datatype Piece = Piece(start: nat, token: Token, arg: Arg)

  predicate GoodPiece(fmt: string, p: Piece) {
    && p.start <= p.token.next <= |fmt| && p.arg.word < WORD64
    && (p.token.spec.ty.Plain? || Waiting(p.token.spec) || KnownBase(p.token.spec))
  }

  /** What a specification makes of its argument. */
  function ConversionText(spec: Spec, arg: Arg): string
    requires arg.word < WORD64 && (spec.ty.Plain? || Waiting(spec) || KnownBase(spec))
  {
    match spec.ty
    case Char => CharText((arg.word % 256) as char, spec)
    case Str => StringText(TextOf(arg), spec)
    case Ptr => PointerText(arg.word, spec)
    case PercentChar => "%"
    case Invalid => "%"
    case Plain => ""
    case Width => ""
    case Precision => ""
    case NrChars => ""
    case _ => NumberText(NumberArg(spec.ty, arg.word), spec)
  }

  /** The text of one token. */
  function TokenText(fmt: string, p: Piece): string
    requires GoodPiece(fmt, p)
  {
    if p.token.spec.ty.Plain? then fmt[p.start..p.token.next] else ConversionText(p.token.spec, p.arg)
  }

  function TakesArg(ty: FormatType): nat {
    if ty.Plain? || ty.PercentChar? || ty.Invalid? then 0 else 1
  }

  /** The specification kept for the next token. */
  function Kept(t: Token, arg: Arg): Spec {
    if t.spec.ty.Width? then t.spec.(fieldWidth := S16(AsInt(arg.word)))
    else if t.spec.ty.Precision? then t.spec.(precision := S16(AsInt(arg.word)))
    else t.spec
  }

  /** Where the next token starts: a pointer conversion swallows the letters and digits after it. */
  function NextStart(fmt: string, t: Token): (j: nat)
    requires t.next <= |fmt|
    ensures t.next <= j <= |fmt|
  {
    if t.spec.ty.Ptr? then AlnumEnd(fmt, t.next) else t.next
  }

  ghost predicate GoodArgs(args: nat -> Arg) {
    forall k: nat :: args(k).word < WORD64
  }

  /** format_decode() may consume nothing, but not twice in a row. */
  function Pending(spec: Spec): nat {
    if Waiting(spec) then 1 else 0
  }

  lemma DecodeProgress(fmt: string, i: nat, spec: Spec, arg: Arg)
    requires i < |fmt|
    ensures var t := Decode(fmt, i, spec);
      i <= NextStart(fmt, t) && (i == NextStart(fmt, t) ==> Pending(Kept(t, arg)) < Pending(spec))
  {
  }

  /** The tokens of a format from position i and argument k on. */
  function Tokens(fmt: string, i: nat, spec: Spec, args: nat -> Arg, k: nat): (ps: seq<Piece>)
    requires i <= |fmt| && GoodArgs(args)
    ensures forall p :: p in ps ==> GoodPiece(fmt, p)
    decreases |fmt| - i, Pending(spec)
  {
    if i == |fmt| then []
    else
      var t := Decode(fmt, i, spec);
      [Piece(i, t, args(k))] + Tokens(fmt, NextStart(fmt, t), Kept(t, args(k)), args, k + TakesArg(t.spec.ty))
  }

  /** Their texts one after another. */
  function Text(fmt: string, ps: seq<Piece>): string
    requires forall p :: p in ps ==> GoodPiece(fmt, p)
  {
    if ps == [] then "" else Text(fmt, ps[..|ps| - 1]) + TokenText(fmt, ps[|ps| - 1])
  }

  lemma TextMore(fmt: string, ps: seq<Piece>, p: Piece)
    requires (forall q :: q in ps ==> GoodPiece(fmt, q)) && GoodPiece(fmt, p)
    ensures Text(fmt, ps + [p]) == Text(fmt, ps) + TokenText(fmt, p)
  {
    assert (ps + [p])[..|ps|] == ps;
  }

  function FirstSpec(): Spec {
    Spec(Plain, NO_FLAGS, 0, '\0', 0, 0)
  }

  /** The text that a format and its arguments stand for. */
  function Rendered(fmt: string, args: nat -> Arg): string
    requires GoodArgs(args)
  {
    Text(fmt, Tokens(fmt, 0, FirstSpec(), args, 0))
  }
}
