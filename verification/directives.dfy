/** Conversion directives as section 7.19.6.1 of ISO C99 writes them, and what format_decode() makes of them. */
module Directives {
  import opened Options
  import opened Decimal
  import opened Formats
  import opened Rendering

  /** A width or a precision: a number, or a star that stands for an argument. */
  datatype Field = Absent | Given(n: nat) | Star

  /** A directive: flags, width, precision, length modifier, conversion. */
  datatype Directive = Directive(flags: string, width: Field, precision: Field, modifier: string, conversion: char)

  predicate IsModifier(s: string) {
    s == "" || s == "h" || s == "hh" || s == "l" || s == "ll" || s == "L" || s == "z" || s == "Z" || s == "t"
  }

  predicate IsInteger(c: char) {
    c == 'd' || c == 'i' || c == 'o' || c == 'u' || c == 'x' || c == 'X'
  }

  predicate IsConversion(c: char) {
    IsInteger(c) || c == 'c' || c == 's' || c == 'p' || c == 'n' || c == '%'
  }

  /** Widths and precisions fit 16 bits; a width does not begin with the flag 0. */
  predicate Good(d: Directive) {
    && (forall i :: 0 <= i < |d.flags| ==> IsFlag(d.flags[i]))
    && (d.width.Given? ==> 0 < d.width.n <= 32767) && (d.precision.Given? ==> d.precision.n <= 32767)
    && IsModifier(d.modifier) && IsConversion(d.conversion)
  }

  /** Most significant digit first. */
  function Numeral(n: nat): string {
    Reverse(Digits(n))
  }

  function WidthText(d: Directive): string {
    match d.width
    case Absent => ""
    case Given(n) => Numeral(n)
    case Star => "*"
  }

  function PrecisionText(d: Directive): string {
    match d.precision
    case Absent => ""
    case Given(n) => "." + Numeral(n)
    case Star => "." + "*"
  }

  function Ending(d: Directive): string {
    d.modifier + [d.conversion]
  }

  function Written(d: Directive): string {
    "%" + (d.flags + (WidthText(d) + (PrecisionText(d) + Ending(d))))
  }

  /** The character that stands for a length modifier. */
  function ModifierChar(s: string): char {
    if s == "" then NO_QUALIFIER else if s == "hh" then 'H' else if s == "ll" then 'L' else s[0]
  }

  function TypeOf(d: Directive): FormatType {
    if d.conversion == 'c' then Char
    else if d.conversion == 's' then Str
    else if d.conversion == 'p' then Ptr
    else if d.conversion == 'n' then NrChars
    else if d.conversion == '%' then PercentChar
    else IntegerType(ModifierChar(d.modifier), d.conversion == 'd' || d.conversion == 'i')
  }

  /** The fields, given the arguments that stars stand for: a negative width justifies to the left, a negative
      precision counts as zero. */
  function WidthOf(d: Directive, w: int): int {
    match d.width
    case Absent => -1
    case Given(n) => n
    case Star => if w < 0 then S16(-w) else w
  }

  function PrecisionOf(d: Directive, p: int): int {
    match d.precision
    case Absent => -1
    case Given(n) => n
    case Star => if p < 0 then 0 else p
  }

  function Meaning(d: Directive, w: int, p: int): Spec {
    Spec(TypeOf(d),
         Flags('0' in d.flags, d.conversion == 'd' || d.conversion == 'i', '+' in d.flags, ' ' in d.flags,
               '-' in d.flags || (d.width.Star? && w < 0), d.conversion == 'x', '#' in d.flags),
         BaseOf(d.conversion), ModifierChar(d.modifier), WidthOf(d, w), PrecisionOf(d, p))
  }

  function BaseOf(c: char): nat {
    if c == 'o' then 8 else if c == 'x' || c == 'X' then 16 else 10
  }

  // ---------- reading the parts ----------

  /** A string stands in the format at a position. */
  predicate Here(fmt: string, i: nat, s: string) {
    i + |s| <= |fmt| && fmt[i..i + |s|] == s
  }

  lemma HereParts(fmt: string, i: nat, s: string, t: string)
    requires Here(fmt, i, s + t)
    ensures Here(fmt, i, s) && Here(fmt, i + |s|, t)
  {
    var u := s + t;
    assert fmt[i..i + |u|][..|s|] == s && fmt[i..i + |u|][|s|..] == t;
  }

  lemma HereAt(fmt: string, i: nat, s: string, k: nat)
    requires Here(fmt, i, s) && k < |s|
    ensures i + k < |fmt| && At(fmt, i + k) == fmt[i + k] == s[k]
  {
    assert fmt[i..i + |s|][k] == fmt[i + k];
  }

  lemma HereTail(fmt: string, i: nat, s: string)
    requires Here(fmt, i, s) && s != ""
    ensures Here(fmt, i + 1, s[1..]) && i < |fmt| && fmt[i] == s[0]
  {
    HereParts(fmt, i, [s[0]], s[1..]);
    HereAt(fmt, i, s, 0);
  }

  /** Flags so far and further ones. */
  function WithFlags(flags: Flags, fs: string): Flags {
    Flags(flags.zeropad || '0' in fs, flags.sign, flags.plus || '+' in fs, flags.space || ' ' in fs,
          flags.left || '-' in fs, flags.small, flags.special || '#' in fs)
  }

  lemma {:induction false} FlagsRead(fmt: string, i: nat, fs: string, flags: Flags)
    requires Here(fmt, i, fs) && (forall k :: 0 <= k < |fs| ==> IsFlag(fs[k])) && !IsFlag(At(fmt, i + |fs|))
    ensures FlagsEnd(fmt, i) == i + |fs| && FlagsFrom(fmt, i, flags) == WithFlags(flags, fs)
    decreases |fs|
  {
    if fs != "" {
      HereTail(fmt, i, fs);
      FlagsRead(fmt, i + 1, fs[1..], AddFlag(flags, fs[0]));
      FlagsCons(flags, fs[0], fs[1..], fs);
    }
  }

  lemma {:induction false} FlagsCons(flags: Flags, c: char, rest: string, fs: string)
    requires fs == [c] + rest && IsFlag(c)
    ensures WithFlags(AddFlag(flags, c), rest) == WithFlags(flags, fs)
  {
    FlagIn('0', c, rest, fs);
    FlagIn('+', c, rest, fs);
    FlagIn(' ', c, rest, fs);
    FlagIn('-', c, rest, fs);
    FlagIn('#', c, rest, fs);
  }

  lemma FlagIn(f: char, c: char, rest: string, fs: string)
    requires fs == [c] + rest
    ensures f in fs <==> f == c || f in rest
  {
  }

  /** The value of digits, most significant first, that follow a number. */
  function Fold(ds: string, acc: nat): nat
    requires forall k :: 0 <= k < |ds| ==> IsDigit(ds[k])
  {
    if ds == "" then acc
    else
      assert IsDigit(ds[0]);
      Fold(ds[1..], acc * 10 + (ds[0] as nat - '0' as nat))
  }

  lemma {:induction false} FoldMore(ds: string, c: char, acc: nat)
    requires (forall k :: 0 <= k < |ds| ==> IsDigit(ds[k])) && IsDigit(c)
    ensures forall k :: 0 <= k < |ds + [c]| ==> IsDigit((ds + [c])[k])
    ensures Fold(ds + [c], acc) == Fold(ds, acc) * 10 + (c as nat - '0' as nat)
    decreases |ds|
  {
    if ds != "" {
      FoldMore(ds[1..], c, acc * 10 + (ds[0] as nat - '0' as nat));
      assert (ds + [c])[1..] == ds[1..] + [c];
    } else {
      assert ds + [c] == [c] && [c][1..] == "";
    }
  }

  /** A numeral is made of digits, begins with a zero only if it is zero, and has its value. */
  lemma {:induction false} NumeralFolds(n: nat)
    ensures Numeral(n) != "" && forall k :: 0 <= k < |Numeral(n)| ==> IsDigit(Numeral(n)[k])
    ensures n > 0 ==> Numeral(n)[0] != '0'
    ensures Fold(Numeral(n), 0) == n
    decreases n
  {
    DigitsValue(n);
    var c := DigitChar(n % 10);
    if n < 10 {
      assert Numeral(n) == [c] && [c][1..] == "";
    } else {
      NumeralFolds(n / 10);
      assert Numeral(n) == Numeral(n / 10) + [c];
      FoldMore(Numeral(n / 10), c, 0);
    }
  }

  lemma {:induction false} DigitsRead(fmt: string, i: nat, ds: string, acc: nat)
    requires Here(fmt, i, ds) && (forall k :: 0 <= k < |ds| ==> IsDigit(ds[k])) && !IsDigit(At(fmt, i + |ds|))
    ensures DigitsEnd(fmt, i) == i + |ds| && Atoi(fmt, i, acc) == Fold(ds, acc)
    decreases |ds|
  {
    if ds != "" {
      HereTail(fmt, i, ds);
      DigitsRead(fmt, i + 1, ds[1..], acc * 10 + (ds[0] as nat - '0' as nat));
    }
  }

  /** A numeral is read back. */
  lemma {:induction false} NumeralRead(fmt: string, i: nat, n: nat)
    requires Here(fmt, i, Numeral(n)) && !IsDigit(At(fmt, i + |Numeral(n)|))
    ensures IsDigit(At(fmt, i)) && (n > 0 ==> At(fmt, i) != '0')
    ensures DigitsEnd(fmt, i) == i + |Numeral(n)| && Atoi(fmt, i, 0) == n
  {
    NumeralFolds(n);
    DigitsRead(fmt, i, Numeral(n), 0);
    HereAt(fmt, i, Numeral(n), 0);
  }

  // ---------- directives ----------

  /** What the decoder adds for the conversion. */
  function Completed(d: Directive, spec: Spec): Spec {
    spec.(ty := TypeOf(d), base := BaseOf(d.conversion), qualifier := ModifierChar(d.modifier),
          flags := spec.flags.(sign := d.conversion == 'd' || d.conversion == 'i', small := d.conversion == 'x'))
  }

  /** Where the next token starts; the conversion p is left for pointer(). */
  function After(d: Directive, end: nat): int {
    if d.conversion == 'p' then end - 1 else end
  }

  lemma {:induction false} ConversionRead(fmt: string, i: nat, d: Directive, spec: Spec)
    requires Here(fmt, i, [d.conversion]) && Good(d) && !spec.flags.sign && !spec.flags.small
    requires spec.qualifier == ModifierChar(d.modifier)
    ensures DecodeConversion(fmt, i, spec) == Token(After(d, i + 1), Completed(d, spec))
  {
    HereAt(fmt, i, [d.conversion], 0);
  }

  lemma {:induction false} EndingStarts(fmt: string, i: nat, d: Directive)
    requires Here(fmt, i, Ending(d)) && Good(d)
    ensures !IsDigit(At(fmt, i)) && !IsFlag(At(fmt, i)) && At(fmt, i) != '.' && At(fmt, i) != '*'
  {
    HereAt(fmt, i, Ending(d), 0);
  }

  lemma {:induction false} EndingRead(fmt: string, i: nat, d: Directive, spec: Spec)
    requires Here(fmt, i, Ending(d)) && Good(d) && !spec.flags.sign && !spec.flags.small
    ensures DecodeQualifier(fmt, i, spec) == Token(After(d, i + |Ending(d)|), Completed(d, spec))
  {
    HereParts(fmt, i, d.modifier, [d.conversion]);
    HereAt(fmt, i, Ending(d), 0);
    if |d.modifier| == 2 {
      HereAt(fmt, i, d.modifier, 1);
    } else if |d.modifier| == 1 {
      HereAt(fmt, i + 1, [d.conversion], 0);
    }
    ConversionRead(fmt, i + |d.modifier|, d, spec.(qualifier := ModifierChar(d.modifier)));
  }

  lemma {:induction false} PrecisionStarts(fmt: string, i: nat, d: Directive, rest: string)
    requires rest == PrecisionText(d) + Ending(d) && Here(fmt, i, rest) && Good(d)
    ensures !IsDigit(At(fmt, i)) && !IsFlag(At(fmt, i)) && At(fmt, i) != '*'
    ensures At(fmt, i) == '.' <==> !d.precision.Absent?
    ensures !d.precision.Absent? ==> At(fmt, i + 1) == rest[1]
    ensures Here(fmt, i + |PrecisionText(d)|, Ending(d))
  {
    HereParts(fmt, i, PrecisionText(d), Ending(d));
    if d.precision.Absent? {
      EndingStarts(fmt, i, d);
    } else {
      HereAt(fmt, i, rest, 0);
      HereAt(fmt, i, rest, 1);
    }
  }

  lemma {:induction false} PrecisionGiven(fmt: string, i: nat, d: Directive, n: nat, rest: string)
    requires rest == PrecisionText(d) + Ending(d) && Here(fmt, i, rest) && Good(d) && d.precision == Given(n)
    ensures IsDigit(At(fmt, i + 1)) && S16(Atoi(fmt, i + 1, 0)) == n
    ensures DigitsEnd(fmt, i + 1) == i + |PrecisionText(d)|
  {
    HereParts(fmt, i, PrecisionText(d), Ending(d));
    HereParts(fmt, i, ".", Numeral(n));
    EndingStarts(fmt, i + |PrecisionText(d)|, d);
    NumeralRead(fmt, i + 1, n);
  }

  /** Without a star the precision is read at once; a star ends the token. */
  lemma {:induction false} PrecisionRead(fmt: string, i: nat, d: Directive, spec: Spec, rest: string)
    requires rest == PrecisionText(d) + Ending(d) && Here(fmt, i, rest) && Good(d)
    requires !spec.flags.sign && !spec.flags.small
    ensures DecodePrecision(fmt, i, spec) ==
      if d.precision.Star? then Token(i + 2, spec.(precision := -1, ty := Precision))
      else Token(After(d, i + |rest|), Completed(d, spec.(precision := PrecisionOf(d, 0))))
  {
    PrecisionStarts(fmt, i, d, rest);
    if !d.precision.Star? {
      EndingRead(fmt, i + |PrecisionText(d)|, d, spec.(precision := PrecisionOf(d, 0)));
    }
    if d.precision.Given? {
      PrecisionGiven(fmt, i, d, d.precision.n, rest);
    }
  }

  /** The specification when the flags have been read. */
  function Flagged(d: Directive, spec: Spec): Spec {
    spec.(flags := WithFlags(NO_FLAGS, d.flags), fieldWidth := -1, ty := Plain)
  }

  lemma {:induction false} WidthGiven(fmt: string, i: nat, d: Directive, n: nat, rest: string)
    requires Good(d) && d.width == Given(n) && Here(fmt, i, Numeral(n) + rest) && !IsDigit(At(fmt, i + |Numeral(n)|))
    ensures IsDigit(At(fmt, i)) && !IsFlag(At(fmt, i))
    ensures DigitsEnd(fmt, i) == i + |Numeral(n)| && S16(Atoi(fmt, i, 0)) == n
  {
    HereParts(fmt, i, Numeral(n), rest);
    NumeralRead(fmt, i, n);
  }

  lemma {:induction false} WidthStarts(fmt: string, i: nat, d: Directive, rest: string, text: string)
    requires rest == PrecisionText(d) + Ending(d) && text == WidthText(d) + rest && Here(fmt, i, text) && Good(d)
    ensures Here(fmt, i + |WidthText(d)|, rest) && !IsFlag(At(fmt, i))
    ensures (IsDigit(At(fmt, i)) <==> d.width.Given?) && (At(fmt, i) == '*' <==> d.width.Star?)
    ensures d.width.Given? ==> DigitsEnd(fmt, i) == i + |WidthText(d)| && S16(Atoi(fmt, i, 0)) == d.width.n
  {
    HereParts(fmt, i, WidthText(d), rest);
    PrecisionStarts(fmt, i + |WidthText(d)|, d, rest);
    if d.width.Star? {
      HereAt(fmt, i, "*", 0);
    } else if d.width.Given? {
      WidthGiven(fmt, i, d, d.width.n, rest);
    }
  }

  lemma {:induction false} WidthDecodes(fmt: string, i: nat, d: Directive, spec: Spec, j: nat, k: nat)
    requires i <= |fmt| && j == FlagsEnd(fmt, i) && FlagsFrom(fmt, i, NO_FLAGS) == WithFlags(NO_FLAGS, d.flags)
    requires (IsDigit(At(fmt, j)) <==> d.width.Given?) && (At(fmt, j) == '*' <==> d.width.Star?) && k <= |fmt|
    requires d.width.Given? ==> DigitsEnd(fmt, j) == k && S16(Atoi(fmt, j, 0)) == d.width.n
    requires d.width.Absent? ==> k == j
    ensures DecodeFlags(fmt, i, spec) ==
      if d.width.Star? then Token(j + 1, Flagged(d, spec).(ty := Width))
      else DecodePrecision(fmt, k, Flagged(d, spec).(fieldWidth := WidthOf(d, 0)))
  {
  }

  /** Without a star the width is read at once; a star ends the token. */
  lemma {:induction false} WidthRead(fmt: string, i: nat, d: Directive, spec: Spec, rest: string, text: string,
                                     j: nat, k: nat)
    requires rest == PrecisionText(d) + Ending(d) && text == WidthText(d) + rest && Here(fmt, i, d.flags + text)
    requires Good(d) && j == i + |d.flags| && k == j + |WidthText(d)|
    ensures Here(fmt, k, rest)
    ensures DecodeFlags(fmt, i, spec) ==
      if d.width.Star? then Token(j + 1, Flagged(d, spec).(ty := Width))
      else DecodePrecision(fmt, k, Flagged(d, spec).(fieldWidth := WidthOf(d, 0)))
  {
    HereParts(fmt, i, d.flags, text);
    WidthStarts(fmt, j, d, rest, text);
    FlagsRead(fmt, i, d.flags, NO_FLAGS);
    WidthDecodes(fmt, i, d, spec, j, k);
  }

  lemma {:induction false} Starts(fmt: string, i: nat, d: Directive, spec: Spec)
    requires Good(d) && Here(fmt, i, Written(d)) && !Waiting(spec)
    ensures i < |fmt| && Here(fmt, i + 1, d.flags + (WidthText(d) + (PrecisionText(d) + Ending(d))))
    ensures Decode(fmt, i, spec) == DecodeFlags(fmt, i + 1, spec.(ty := Plain))
  {
    HereParts(fmt, i, "%", d.flags + (WidthText(d) + (PrecisionText(d) + Ending(d))));
    HereAt(fmt, i, "%", 0);
  }

  lemma {:induction false} AllParts(d: Directive, spec: Spec, w: int, p: int)
    requires spec.flags == WithFlags(NO_FLAGS, d.flags).(left := Meaning(d, w, p).flags.left)
    requires spec.fieldWidth == WidthOf(d, w) && spec.precision == PrecisionOf(d, p)
    ensures Completed(d, spec) == Meaning(d, w, p)
  {
  }

  /** Decoding a directive without stars gives back its parts, wherever it stands and whatever follows it. */
  lemma {:induction false} DirectiveDecodes(fmt: string, i: nat, d: Directive, spec: Spec)
    requires Good(d) && Here(fmt, i, Written(d)) && !Waiting(spec) && !d.width.Star? && !d.precision.Star?
    ensures i < |fmt|
    ensures Decode(fmt, i, spec) == Token(After(d, i + |Written(d)|), Meaning(d, 0, 0))
  {
    var rest := PrecisionText(d) + Ending(d);
    var text := WidthText(d) + rest;
    var j := i + 1 + |d.flags|;
    var k := j + |WidthText(d)|;
    Starts(fmt, i, d, spec);
    WidthRead(fmt, i + 1, d, spec.(ty := Plain), rest, text, j, k);
    var read := Flagged(d, spec).(fieldWidth := WidthOf(d, 0));
    PrecisionRead(fmt, k, d, read, rest);
    AllParts(d, read.(precision := PrecisionOf(d, 0)), 0, 0);
  }
}
