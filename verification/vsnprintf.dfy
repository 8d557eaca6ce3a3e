/** The bounded writer of vsprintf.c. Positions in the buffer stand for the pointers buf, str and end. */
module Vsnprintf {
  import opened Decimal
  import opened Formats
  import opened Rendering

  /** A buffer after text has been written from its start, where only the first end characters may change. */
  function Contents(before: string, end: nat, text: string): (s: string)
    requires end <= |before|
    ensures |s| == |before|
  {
    seq(|before|, i requires 0 <= i < |before| => if i < end && i < |text| then text[i] else before[i])
  }

  lemma ContentsPut(before: string, end: nat, text: string, c: char)
    requires end <= |before|
    ensures Contents(before, end, text + [c]) ==
      if |text| < end then Contents(before, end, text)[|text| := c] else Contents(before, end, text)
  {
  }

  /** if (str < end) *str = c; ++str; */
  method Put(buf: array<char>, end: nat, str: nat, c: char, ghost before: string, ghost text: string)
    returns (str': nat)
    requires end <= buf.Length == |before| && str == |text| && buf[..] == Contents(before, end, text)
    modifies buf
    ensures str' == str + 1 && buf[..] == Contents(before, end, text + [c])
  {
    ContentsPut(before, end, text, c);
    if str < end {
      buf[str] := c;
    }
    str' := str + 1;
  }

  lemma FillMore(text: string, c: char, k: nat)
    ensures text + Fill(c, k) + [c] == text + Fill(c, k + 1)
  {
  }

  /** while (--w >= 0): a character for every round. */
  method PutRounds(buf: array<char>, end: nat, str0: nat, c: char, w0: int, ghost before: string, ghost text: string)
    returns (str: nat, w: int)
    requires end <= buf.Length == |before| && str0 == |text| && buf[..] == Contents(before, end, text)
    modifies buf
    ensures str == str0 + Rounds(w0) && w == AfterRounds(w0)
    ensures buf[..] == Contents(before, end, text + Fill(c, Rounds(w0)))
  {
    str, w := str0, S16(w0 - 1);
    ghost var n := 0;
    assert text + Fill(c, 0) == text;
    while w >= 0
      invariant w <= 32767 && 0 <= n && str == str0 + n
      invariant w >= 0 ==> n + w + 1 == Rounds(w0) && AfterRounds(w0) == -1
      invariant w < 0 ==> n == Rounds(w0) && w == AfterRounds(w0)
      invariant buf[..] == Contents(before, end, text + Fill(c, n))
      decreases w
    {
      str := Put(buf, end, str, c, before, text + Fill(c, n));
      FillMore(text, c, n);
      n := n + 1;
      w := S16(w - 1);
    }
  }

  /** while (--w > 0) */
  method PutStrictRounds(buf: array<char>, end: nat, str0: nat, c: char, w0: int,
                         ghost before: string, ghost text: string) returns (str: nat, w: int)
    requires end <= buf.Length == |before| && str0 == |text| && buf[..] == Contents(before, end, text)
    modifies buf
    ensures str == str0 + StrictRounds(w0) && w == AfterStrictRounds(w0)
    ensures buf[..] == Contents(before, end, text + Fill(c, StrictRounds(w0)))
  {
    str, w := str0, S16(w0 - 1);
    ghost var n := 0;
    assert text + Fill(c, 0) == text;
    while w > 0
      invariant w <= 32767 && 0 <= n && str == str0 + n
      invariant w > 0 ==> n + w == StrictRounds(w0) && AfterStrictRounds(w0) == 0
      invariant w <= 0 ==> n == StrictRounds(w0) && w == AfterStrictRounds(w0)
      invariant buf[..] == Contents(before, end, text + Fill(c, n))
      decreases w
    {
      str := Put(buf, end, str, c, before, text + Fill(c, n));
      FillMore(text, c, n);
      n := n + 1;
      w := S16(w - 1);
    }
  }

  /** while (len < w--) */
  method PutTrailing(buf: array<char>, end: nat, str0: nat, c: char, len: nat, w0: int,
                     ghost before: string, ghost text: string) returns (str: nat, w: int)
    requires end <= buf.Length == |before| && str0 == |text| && buf[..] == Contents(before, end, text)
    requires -32768 <= w0 <= 32767
    modifies buf
    ensures str == str0 + TrailingRounds(len, w0) && w == AfterTrailingRounds(len, w0)
    ensures buf[..] == Contents(before, end, text + Fill(c, TrailingRounds(len, w0)))
  {
    str, w := str0, w0;
    ghost var n := 0;
    assert text + Fill(c, 0) == text;
    while len < w
      invariant -32768 <= w <= 32767 && 0 <= n && str == str0 + n && w == w0 - n
      invariant n == 0 || len <= w
      invariant buf[..] == Contents(before, end, text + Fill(c, n))
      decreases w
    {
      w := S16(w - 1);
      str := Put(buf, end, str, c, before, text + Fill(c, n));
      FillMore(text, c, n);
      n := n + 1;
    }
    w := S16(w - 1);
  }

  /** A run of characters one after another. */
  method PutAll(buf: array<char>, end: nat, str0: nat, s: string, ghost before: string, ghost text: string)
    returns (str: nat)
    requires end <= buf.Length == |before| && str0 == |text| && buf[..] == Contents(before, end, text)
    modifies buf
    ensures str == str0 + |s| && buf[..] == Contents(before, end, text + s)
  {
    str := str0;
    var i := 0;
    assert text + s[..0] == text;
    while i < |s|
      invariant 0 <= i <= |s| && str == str0 + i && buf[..] == Contents(before, end, text + s[..i])
    {
      str := Put(buf, end, str, s[i], before, text + s[..i]);
      assert text + s[..i] + [s[i]] == text + s[..i + 1];
      i := i + 1;
    }
    assert s[..|s|] == s;
  }

  // ---------- number() ----------

  /** The digits in tmp[], least significant first. */
  method GenerateDigits(num: nat, spec: Spec) returns (tmp: array<char>, i: nat)
    requires num < WORD64 && KnownBase(spec)
    ensures fresh(tmp) && tmp.Length == 66 && i <= 22 && tmp[..i] == NumberDigits(num, spec)
  {
    tmp := new char[66];
    FewDigits(num, spec);
    var n := Magnitude(num, spec);
    if n == 0 {
      tmp[0] := '0';
      i := 1;
    } else if spec.base != 10 {
      i := ShiftDigits(tmp, n, spec);
    } else {
      i := PutDec(tmp, 0, n);
      assert tmp[..i] == tmp[..][..i];
    }
  }

  /** The digits still to be generated. */
  function RestDigits(base: nat, small: bool, n: nat): seq<char>
    requires base == 8 || base == 16
  {
    if n == 0 then [] else DigitsIn(base, small, n)
  }

  lemma RestStep(base: nat, small: bool, n: nat)
    requires (base == 8 || base == 16) && n > 0
    ensures RestDigits(base, small, n) == [DigitIn(n % base, small)] + RestDigits(base, small, n / base)
  {
    if n < base {
      assert n / base == 0 && n % base == n;
    }
  }

  /** Digits by masks and shifts. */
  method ShiftDigits(tmp: array<char>, n: nat, spec: Spec) returns (i: nat)
    requires n > 0 && (spec.base == 8 || spec.base == 16) && |DigitsIn(spec.base, spec.flags.small, n)| <= tmp.Length
    modifies tmp
    ensures i <= tmp.Length && tmp[..i] == DigitsIn(spec.base, spec.flags.small, n)
  {
    var num: nat, base, small := n, spec.base, spec.flags.small;
    i := 0;
    while num != 0
      invariant i <= tmp.Length && DigitsIn(base, small, n) == tmp[..i] + RestDigits(base, small, num)
      decreases num
    {
      RestStep(base, small, num);
      tmp[i] := DigitIn(num % base, small);
      num := num / base;
      i := i + 1;
    }
  }

  /** Leading blanks, sign and prefix. */
  method NumberHead(buf: array<char>, end: nat, str0: nat, num: nat, spec: Spec, room: int,
                    ghost before: string, ghost text: string) returns (str: nat, w: int)
    requires end <= buf.Length == |before| && str0 == |text| && buf[..] == Contents(before, end, text)
    requires num < WORD64
    modifies buf
    ensures w == AfterLead(spec, room)
    ensures var text' := text + Fill(' ', LeadWidth(spec, room)) + SignText(num, spec) + PrefixText(spec);
      str == |text'| && buf[..] == Contents(before, end, text')
  {
    str, w := str0, room;
    assert text + Fill(' ', 0) == text;
    if !spec.flags.zeropad && !spec.flags.left {
      str, w := PutRounds(buf, end, str, ' ', w, before, text);
    }
    ghost var padded := text + Fill(' ', LeadWidth(spec, room));
    str := PutAll(buf, end, str, SignText(num, spec), before, padded);
    str := PutAll(buf, end, str, PrefixText(spec), before, padded + SignText(num, spec));
  }

  /** Zero or blank padding, further zeros, the digits in their order, trailing blanks. */
  method NumberTail(buf: array<char>, end: nat, str0: nat, digits: seq<char>, spec: Spec, w0: int,
                    ghost before: string, ghost text: string) returns (str: nat)
    requires end <= buf.Length == |before| && str0 == |text| && buf[..] == Contents(before, end, text)
    requires -32768 <= spec.precision <= 32767 && |digits| <= 32767
    modifies buf
    ensures var w := if spec.flags.left then w0 else AfterRounds(w0);
      var text' := text + Fill(MiddleChar(spec), if spec.flags.left then 0 else Rounds(w0)) +
        Fill('0', FullPrecision(|digits|, spec) - |digits|) + Reverse(digits) + Fill(' ', Rounds(w));
      str == |text'| && buf[..] == Contents(before, end, text')
  {
    var w := w0;
    str := str0;
    ghost var t := text + Fill(MiddleChar(spec), if spec.flags.left then 0 else Rounds(w0));
    assert text + Fill(MiddleChar(spec), 0) == text;
    if !spec.flags.left {
      str, w := PutRounds(buf, end, str, MiddleChar(spec), w, before, text);
    }
    var precision := FullPrecision(|digits|, spec);
    str := PutZeros(buf, end, str, precision - |digits|, before, t);
    t := t + Fill('0', precision - |digits|);
    str := PutAll(buf, end, str, Reverse(digits), before, t);
    t := t + Reverse(digits);
    str, w := PutRounds(buf, end, str, ' ', w, before, t);
  }

  /** while (i <= --precision) */
  method PutZeros(buf: array<char>, end: nat, str0: nat, count: nat, ghost before: string, ghost text: string)
    returns (str: nat)
    requires end <= buf.Length == |before| && str0 == |text| && buf[..] == Contents(before, end, text)
    modifies buf
    ensures str == str0 + count && buf[..] == Contents(before, end, text + Fill('0', count))
  {
    str := str0;
    var n := 0;
    assert text + Fill('0', 0) == text;
    while n < count
      invariant 0 <= n <= count && str == str0 + n && buf[..] == Contents(before, end, text + Fill('0', n))
    {
      str := Put(buf, end, str, '0', before, text + Fill('0', n));
      FillMore(text, '0', n);
      n := n + 1;
    }
  }

  /** The field width without sign and prefix. */
  method NarrowField(num: nat, spec: Spec) returns (w: int)
    requires KnownBase(spec)
    ensures w == Shrunk(spec.fieldWidth, |SignText(num, spec)| + |PrefixText(spec)|)
  {
    w := spec.fieldWidth;
    if SignText(num, spec) != "" {
      w := S16(w - 1);
    }
    assert w == Shrunk(spec.fieldWidth, |SignText(num, spec)|);
    if HasPrefix(spec) {
      w := S16(w - 1);
      assert w == Shrunk(spec.fieldWidth, |SignText(num, spec)| + 1);
      if spec.base == 16 {
        w := S16(w - 1);
      }
    }
  }

  /** Justified to the left, a number is not padded with zeros. */
  function Cleared(spec: Spec): Spec {
    if spec.flags.left then spec.(flags := spec.flags.(zeropad := false)) else spec
  }

  lemma ClearedLoops(spec: Spec, s: Spec, room: int)
    requires s == Cleared(spec)
    ensures LeadWidth(s, room) == LeadWidth(spec, room) && MiddleWidth(s, room) == MiddleWidth(spec, room)
    ensures AfterMiddle(s, room) == AfterMiddle(spec, room) && MiddleChar(s) == MiddleChar(spec)
  {
    hide S16;
  }

  lemma ClearedTexts(num: nat, spec: Spec, s: Spec)
    requires num < WORD64 && KnownBase(spec) && s == Cleared(spec)
    ensures SignText(num, s) == SignText(num, spec) && PrefixText(s) == PrefixText(spec)
    ensures NumberDigits(num, s) == NumberDigits(num, spec) && s.fieldWidth == spec.fieldWidth
    ensures forall n: nat :: FullPrecision(n, s) == FullPrecision(n, spec)
  {
    hide Digits, DigitsIn;
  }

  lemma ClearedSame(num: nat, spec: Spec)
    requires num < WORD64 && KnownBase(spec)
    ensures NumberText(num, Cleared(spec)) == NumberText(num, spec)
  {
    var s := Cleared(spec);
    ClearedTexts(num, spec, s);
    ClearedLoops(spec, s, Room(num, spec));
    hide Cleared, SignText, PrefixText, NumberDigits, FullPrecision, LeadWidth, MiddleWidth, MiddleChar, AfterMiddle,
      S16, Shrunk, Rounds;
  }

  lemma Appended(text: string, a: string, b: string, c: string, d: string, e: string, f: string, g: string)
    ensures text + a + b + c + d + e + f + g == text + (a + b + c + d + e + f + g)
  {
  }

  /** number() */
  method Number(buf: array<char>, end: nat, str0: nat, num: nat, spec0: Spec, ghost before: string, ghost text: string)
    returns (str: nat)
    requires end <= buf.Length == |before| && str0 == |text| && buf[..] == Contents(before, end, text)
    requires num < WORD64 && KnownBase(spec0) && Field16(spec0)
    modifies buf
    ensures str == |text| + |NumberText(num, spec0)| && buf[..] == Contents(before, end, text + NumberText(num, spec0))
  {
    ClearedSame(num, spec0);
    str := NumberCleared(buf, end, str0, num, Cleared(spec0), before, text);
  }

  /** Once the flags are settled. */
  method NumberCleared(buf: array<char>, end: nat, str0: nat, num: nat, spec: Spec,
                       ghost before: string, ghost text: string) returns (str: nat)
    requires end <= buf.Length == |before| && str0 == |text| && buf[..] == Contents(before, end, text)
    requires num < WORD64 && KnownBase(spec) && Field16(spec)
    modifies buf
    ensures str == |text| + |NumberText(num, spec)| && buf[..] == Contents(before, end, text + NumberText(num, spec))
  {
    var tmp, i := GenerateDigits(num, spec);
    var room := FieldRoom(num, spec, i);
    str := NumberBody(buf, end, str0, num, spec, tmp[..i], room, before, text);
  }

  method FieldRoom(num: nat, spec: Spec, digits: nat) returns (room: int)
    requires num < WORD64 && KnownBase(spec) && digits == |NumberDigits(num, spec)|
    ensures room == Room(num, spec)
  {
    var w := NarrowField(num, spec);
    room := S16(w - FullPrecision(digits, spec));
  }

  method NumberBody(buf: array<char>, end: nat, str0: nat, num: nat, spec: Spec, digits: seq<char>, room: int,
                    ghost before: string, ghost text: string) returns (str: nat)
    requires end <= buf.Length == |before| && str0 == |text| && buf[..] == Contents(before, end, text)
    requires num < WORD64 && KnownBase(spec) && Field16(spec)
    requires digits == NumberDigits(num, spec) && |digits| <= 22 && room == Room(num, spec)
    modifies buf
    ensures str == |text| + |NumberText(num, spec)| && buf[..] == Contents(before, end, text + NumberText(num, spec))
  {
    var w;
    str, w := NumberHead(buf, end, str0, num, spec, room, before, text);
    ghost var lead, middle := Fill(' ', LeadWidth(spec, room)), Fill(MiddleChar(spec), MiddleWidth(spec, room));
    ghost var zeros := Fill('0', FullPrecision(|digits|, spec) - |digits|);
    ghost var trail := Fill(' ', Rounds(AfterMiddle(spec, room)));
    ghost var head := text + lead + SignText(num, spec) + PrefixText(spec);
    str := NumberTail(buf, end, str, digits, spec, w, before, head);
    Appended(text, lead, SignText(num, spec), PrefixText(spec), middle, zeros, Reverse(digits), trail);
  }

  // ---------- the other conversions ----------

  /** string() */
  method String(buf: array<char>, end: nat, str0: nat, s: string, spec: Spec, ghost before: string, ghost text: string)
    returns (str: nat)
    requires end <= buf.Length == |before| && str0 == |text| && buf[..] == Contents(before, end, text)
    requires Ranges(spec)
    modifies buf
    ensures str == |text| + |StringText(s, spec)| && buf[..] == Contents(before, end, text + StringText(s, spec))
  {
    var len := Cut(s, spec.precision);
    var w := spec.fieldWidth;
    str := str0;
    ghost var lead := if spec.flags.left then 0 else TrailingRounds(len, w);
    assert text + Fill(' ', 0) == text;
    if !spec.flags.left {
      str, w := PutTrailing(buf, end, str, ' ', len, w, before, text);
    }
    ghost var t := text + Fill(' ', lead);
    str := PutAll(buf, end, str, s[..len], before, t);
    t := t + s[..len];
    ghost var trail := Fill(' ', TrailingRounds(len, w));
    str, w := PutTrailing(buf, end, str, ' ', len, w, before, t);
    ThreeParts(text, Fill(' ', lead), s[..len], trail);
  }

  lemma ThreeParts(text: string, a: string, b: string, c: string)
    ensures text + a + b + c == text + (a + b + c)
  {
  }

  /** The conversion c. */
  method Character(buf: array<char>, end: nat, str0: nat, c: char, spec: Spec, ghost before: string, ghost text: string)
    returns (str: nat)
    requires end <= buf.Length == |before| && str0 == |text| && buf[..] == Contents(before, end, text)
    modifies buf
    ensures str == |text| + |CharText(c, spec)| && buf[..] == Contents(before, end, text + CharText(c, spec))
  {
    var w := spec.fieldWidth;
    str := str0;
    ghost var lead := if spec.flags.left then 0 else StrictRounds(w);
    assert text + Fill(' ', 0) == text;
    if !spec.flags.left {
      str, w := PutStrictRounds(buf, end, str, ' ', w, before, text);
    }
    ghost var t := text + Fill(' ', lead);
    str := Put(buf, end, str, c, before, t);
    t := t + [c];
    ghost var trail := Fill(' ', StrictRounds(w));
    str, w := PutStrictRounds(buf, end, str, ' ', w, before, t);
    ThreeParts(text, Fill(' ', lead), [c], trail);
  }

  /** pointer() */
  method Pointer(buf: array<char>, end: nat, str0: nat, word: nat, spec: Spec, ghost before: string, ghost text: string)
    returns (str: nat)
    requires end <= buf.Length == |before| && str0 == |text| && buf[..] == Contents(before, end, text)
    requires word < WORD64 && Ranges(spec) && -1 <= spec.precision
    modifies buf
    ensures str == |text| + |PointerText(word, spec)|
    ensures buf[..] == Contents(before, end, text + PointerText(word, spec))
  {
    if word == 0 {
      str := String(buf, end, str0, "(null)", NullSpec(spec), before, text);
    } else {
      str := Number(buf, end, str0, word, PointerSpec(spec), before, text);
    }
  }

  /** Literal text: memcpy() of what fits. */
  method Copy(buf: array<char>, end: nat, str0: nat, s: string, ghost before: string, ghost text: string)
    returns (str: nat)
    requires end <= buf.Length == |before| && str0 == |text| && buf[..] == Contents(before, end, text)
    modifies buf
    ensures str == |text| + |s| && buf[..] == Contents(before, end, text + s)
  {
    if str0 < end {
      var copy := if |s| > end - str0 then end - str0 else |s|;
      forall j | 0 <= j < copy {
        buf[str0 + j] := s[j];
      }
    }
    str := str0 + |s|;
  }

  // ---------- vsnprintf() ----------

  /** One token. */
  method PutToken(buf: array<char>, end: nat, str0: nat, fmt: string, p: Piece, ghost before: string,
                  ghost text: string)
    returns (str: nat)
    requires end <= buf.Length == |before| && str0 == |text| && buf[..] == Contents(before, end, text)
    requires GoodPiece(fmt, p) && Ranges(p.token.spec)
    requires p.token.spec.ty.Plain? || Waiting(p.token.spec) || -1 <= p.token.spec.precision
    modifies buf
    ensures str == |text| + |TokenText(fmt, p)| && buf[..] == Contents(before, end, text + TokenText(fmt, p))
  {
    assert text + "" == text;
    var spec, word := p.token.spec, p.arg.word;
    match spec.ty {
      case Plain => str := Copy(buf, end, str0, fmt[p.start..p.token.next], before, text);
      case Char => str := Character(buf, end, str0, (word % 256) as char, spec, before, text);
      case Str => str := String(buf, end, str0, TextOf(p.arg), spec, before, text);
      case Ptr => str := Pointer(buf, end, str0, word, spec, before, text);
      case PercentChar => str := Put(buf, end, str0, '%', before, text);
      case Invalid => str := Put(buf, end, str0, '%', before, text);
      case Width => str := str0;
      case Precision => str := str0;
      case NrChars => str := str0;
      case _ => str := Number(buf, end, str0, NumberArg(spec.ty, word), spec, before, text);
    }
  }

  /** What vsnprintf() leaves in a buffer of a given size. */
  function Terminated(before: string, size: nat, text: string): string
    requires size <= |before|
  {
    if size == 0 then before
    else Contents(before, size, text)[(if |text| < size then |text| else size - 1) := '\0']
  }

  lemma TokenGood(fmt: string, i: nat, spec: Spec, arg: Arg, t: Token)
    requires i < |fmt| && arg.word < WORD64 && Ranges(spec) && t == Decode(fmt, i, spec)
    ensures i <= t.next && GoodPiece(fmt, Piece(i, t, arg)) && Ranges(t.spec) && Ranges(Kept(t, arg))
    ensures t.spec.ty.Plain? || Waiting(t.spec) || -1 <= t.spec.precision
    ensures i <= NextStart(fmt, t) && (i == NextStart(fmt, t) ==> Pending(Kept(t, arg)) < Pending(spec))
  {
    DecodeProgress(fmt, i, spec, arg);
  }

  lemma {:induction false} TokensStep(fmt: string, i: nat, spec: Spec, args: nat -> Arg, k: nat, t: Token)
    requires i < |fmt| && GoodArgs(args) && t == Decode(fmt, i, spec)
    ensures Tokens(fmt, i, spec, args, k) ==
      [Piece(i, t, args(k))] + Tokens(fmt, NextStart(fmt, t), Kept(t, args(k)), args, k + TakesArg(t.spec.ty))
  {
    hide Decode, NextStart, Kept, TakesArg, GoodPiece;
  }

  /** The position, specification and argument after a token. */
  method NextToken(fmt: string, i0: nat, spec0: Spec, ghost args: nat -> Arg, k0: nat, arg: Arg)
    returns (p: Piece, i: nat, spec: Spec, k: nat)
    requires i0 < |fmt| && GoodArgs(args) && arg == args(k0) && Ranges(spec0)
    ensures GoodPiece(fmt, p) && Ranges(p.token.spec) && Ranges(spec)
    ensures p.token.spec.ty.Plain? || Waiting(p.token.spec) || -1 <= p.token.spec.precision
    ensures i0 <= i <= |fmt| && (i == i0 ==> Pending(spec) < Pending(spec0))
    ensures Tokens(fmt, i0, spec0, args, k0) == [p] + Tokens(fmt, i, spec, args, k)
  {
    var next, decoded := FormatDecode(fmt, i0, spec0);
    var t := Token(next, decoded);
    TokenGood(fmt, i0, spec0, arg, t);
    TokensStep(fmt, i0, spec0, args, k0, t);
    i, spec, k := AfterToken(fmt, t, arg, k0);
    p := Piece(i0, t, arg);
  }

  method AfterToken(fmt: string, t: Token, arg: Arg, k0: nat) returns (i: nat, spec: Spec, k: nat)
    requires t.next <= |fmt|
    ensures i == NextStart(fmt, t) && spec == Kept(t, arg) && k == k0 + TakesArg(t.spec.ty)
  {
    i, spec, k := t.next, Kept(t, arg), k0 + TakesArg(t.spec.ty);
    if t.spec.ty.Ptr? {
      i := SkipAlnum(fmt, i);
    }
  }

  /** The main loop. */
  method Render(buf: array<char>, end: nat, fmt: string, args: nat -> Arg, ghost before: string) returns (str: nat)
    requires end <= buf.Length && before == buf[..] && GoodArgs(args)
    modifies buf
    ensures str == |Rendered(fmt, args)| && buf[..] == Contents(before, end, Rendered(fmt, args))
  {
    var i: nat, k: nat, spec := 0, 0, FirstSpec();
    ghost var ps, all: seq<Piece> := [], Tokens(fmt, 0, FirstSpec(), args, 0);
    str := 0;
    assert buf[..] == Contents(before, end, "") && [] + all == all;
    while i < |fmt|
      invariant i <= |fmt| && Ranges(spec) && forall p :: p in ps ==> GoodPiece(fmt, p)
      invariant all == ps + Tokens(fmt, i, spec, args, k)
      invariant str == |Text(fmt, ps)| && buf[..] == Contents(before, end, Text(fmt, ps))
      decreases |fmt| - i, Pending(spec)
    {
      var p;
      p, i, spec, k := NextToken(fmt, i, spec, args, k, args(k));
      str := PutToken(buf, end, str, fmt, p, before, Text(fmt, ps));
      TextMore(fmt, ps, p);
      PiecesMore(ps, p, Tokens(fmt, i, spec, args, k));
      ps := ps + [p];
    }
    assert ps + [] == ps;
  }

  lemma PiecesMore(ps: seq<Piece>, p: Piece, rest: seq<Piece>)
    ensures ps + ([p] + rest) == ps + [p] + rest
  {
  }

  /** vsnprintf(): returns the length of the whole text, and the buffer holds as much of it as fits. */
  method Vsnprintf(buf: array<char>, size: nat, fmt: string, args: nat -> Arg) returns (r: int)
    requires size <= buf.Length && GoodArgs(args)
    modifies buf
    ensures AsInt(size) < 0 ==> r == 0 && buf[..] == old(buf[..])
    ensures AsInt(size) >= 0 ==>
      var text := Rendered(fmt, args);
      r == AsInt(|text|) && buf[..] == Terminated(old(buf[..]), size, text)
  {
    if AsInt(size) < 0 {
      return 0;
    }
    var str := Render(buf, size, fmt, args, buf[..]);
    if size > 0 {
      if str < size {
        buf[str] := '\0';
      } else {
        buf[size - 1] := '\0';
      }
    }
    r := AsInt(str);
  }

  /** For sizes and texts that an int can hold: the result is the length of the text, the buffer holds its
      first size - 1 characters at most and a NUL, and nothing from size on is touched. */
  lemma TerminatedHolds(before: string, size: nat, text: string)
    requires 0 < size <= |before|
    ensures var s := Terminated(before, size, text);
      var n := if |text| < size then |text| else size - 1;
      && |s| == |before| && s[..n] == text[..n] && s[n] == '\0'
      && n < size && s[n + 1..] == before[n + 1..]
    ensures |text| < 0x8000_0000 ==> AsInt(|text|) == |text|
  {
    var s := Terminated(before, size, text);
    var n := if |text| < size then |text| else size - 1;
    assert s[..n] == text[..n] && s[n + 1..] == before[n + 1..];
  }
}
