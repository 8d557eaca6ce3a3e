/** What vsnprintf() renders: literal text, then each directive with its arguments, then the rest. */
module Composition {
  import opened Decimal
  import opened Formats
  import opened Rendering
  import opened Directives
  import Vsnprintf

  /** The rendering of a format from a position and an argument on. */
  function From(fmt: string, i: nat, spec: Spec, args: nat -> Arg, k: nat): string
    requires i <= |fmt| && GoodArgs(args)
  {
    Text(fmt, Tokens(fmt, i, spec, args, k))
  }

  lemma {:induction false} TextCons(fmt: string, p: Piece, rest: seq<Piece>, all: seq<Piece>, first: string)
    requires GoodPiece(fmt, p) && (forall q :: q in rest ==> GoodPiece(fmt, q)) && all == [p] + rest
    requires first == TokenText(fmt, p)
    ensures (forall q :: q in all ==> GoodPiece(fmt, q)) && Text(fmt, all) == first + Text(fmt, rest)
    decreases |rest|
  {
    var n := |rest|;
    assert all[n] == if n == 0 then p else rest[n - 1];
    if n == 0 {
      assert all[..n] == [];
    } else {
      assert all[..n] == [p] + rest[..n - 1];
      TextCons(fmt, p, rest[..n - 1], all[..n], first);
      TextEnd(first, Text(fmt, rest[..n - 1]), TokenText(fmt, rest[n - 1]));
    }
  }

  lemma TextEnd(a: string, b: string, c: string)
    ensures (a + b) + c == a + (b + c)
  {
  }

  lemma {:induction false} FromStep(fmt: string, i: nat, spec: Spec, args: nat -> Arg, k: nat, t: Token)
    requires i < |fmt| && GoodArgs(args) && t == Decode(fmt, i, spec)
    ensures GoodPiece(fmt, Piece(i, t, args(k)))
    ensures From(fmt, i, spec, args, k) == TokenText(fmt, Piece(i, t, args(k))) +
      From(fmt, NextStart(fmt, t), Kept(t, args(k)), args, k + TakesArg(t.spec.ty))
  {
    Vsnprintf.TokensStep(fmt, i, spec, args, k, t);
    var p := Piece(i, t, args(k));
    var rest := Tokens(fmt, NextStart(fmt, t), Kept(t, args(k)), args, k + TakesArg(t.spec.ty));
    TextCons(fmt, p, rest, Tokens(fmt, i, spec, args, k), TokenText(fmt, p));
  }

  // ---------- a format read from a position is its suffix read from the start ----------

  predicate Suffix(fmt: string, n: nat, b: string) {
    n <= |fmt| && b == fmt[n..]
  }

  lemma AtSuffix(fmt: string, n: nat, b: string, i: nat)
    requires Suffix(fmt, n, b)
    ensures At(fmt, n + i) == At(b, i) && (n + i < |fmt| <==> i < |b|)
  {
  }

  lemma {:induction false} LiteralSuffix(fmt: string, n: nat, b: string, i: nat)
    requires Suffix(fmt, n, b) && i <= |b|
    ensures LiteralEnd(fmt, n + i) == n + LiteralEnd(b, i)
    decreases |b| - i
  {
    if i < |b| && b[i] != '%' {
      LiteralSuffix(fmt, n, b, i + 1);
    }
  }

  lemma {:induction false} FlagsSuffix(fmt: string, n: nat, b: string, i: nat, flags: Flags)
    requires Suffix(fmt, n, b) && i <= |b|
    ensures FlagsEnd(fmt, n + i) == n + FlagsEnd(b, i) && FlagsFrom(fmt, n + i, flags) == FlagsFrom(b, i, flags)
    decreases |b| - i
  {
    if i < |b| && IsFlag(b[i]) {
      FlagsSuffix(fmt, n, b, i + 1, AddFlag(flags, b[i]));
    }
  }

  lemma {:induction false} DigitsSuffix(fmt: string, n: nat, b: string, i: nat, acc: nat)
    requires Suffix(fmt, n, b) && i <= |b|
    ensures DigitsEnd(fmt, n + i) == n + DigitsEnd(b, i) && Atoi(fmt, n + i, acc) == Atoi(b, i, acc)
    decreases |b| - i
  {
    if i < |b| && IsDigit(b[i]) {
      DigitsSuffix(fmt, n, b, i + 1, acc * 10 + (b[i] as nat - '0' as nat));
    }
  }

  lemma {:induction false} AlnumSuffix(fmt: string, n: nat, b: string, i: nat)
    requires Suffix(fmt, n, b) && i <= |b|
    ensures AlnumEnd(fmt, n + i) == n + AlnumEnd(b, i)
    decreases |b| - i
  {
    if i < |b| && IsAlnum(b[i]) {
      AlnumSuffix(fmt, n, b, i + 1);
    }
  }

  function Moved(t: Token, n: nat): Token {
    Token(n + t.next, t.spec)
  }

  predicate SameFields(s1: Spec, s2: Spec) {
    s1.flags == s2.flags && s1.fieldWidth == s2.fieldWidth
  }

  lemma {:induction false} ConversionSuffix(fmt: string, n: nat, b: string, i: nat, s1: Spec, s2: Spec)
    requires Suffix(fmt, n, b) && i <= |b|
    requires SameFields(s1, s2) && s1.precision == s2.precision && s1.qualifier == s2.qualifier
    ensures DecodeConversion(fmt, n + i, s1) == Moved(DecodeConversion(b, i, s2), n)
  {
    AtSuffix(fmt, n, b, i);
  }

  lemma {:induction false} QualifierSuffix(fmt: string, n: nat, b: string, i: nat, s1: Spec, s2: Spec)
    requires Suffix(fmt, n, b) && i <= |b| && SameFields(s1, s2) && s1.precision == s2.precision
    ensures DecodeQualifier(fmt, n + i, s1) == Moved(DecodeQualifier(b, i, s2), n)
  {
    hide DecodeConversion;
    AtSuffix(fmt, n, b, i);
    AtSuffix(fmt, n, b, i + 1);
    if i < |b| && IsQualifier(b[i]) {
      var q := b[i];
      if q == At(b, i + 1) && (q == 'l' || q == 'h') {
        var c := if q == 'l' then 'L' else 'H';
        ConversionSuffix(fmt, n, b, i + 2, s1.(qualifier := c), s2.(qualifier := c));
      } else {
        ConversionSuffix(fmt, n, b, i + 1, s1.(qualifier := q), s2.(qualifier := q));
      }
    } else {
      ConversionSuffix(fmt, n, b, i, s1.(qualifier := NO_QUALIFIER), s2.(qualifier := NO_QUALIFIER));
    }
  }

  /** Specifications between two calls of the decoder that lead to the same text. */
  predicate Alike(s1: Spec, s2: Spec) {
    || (!Waiting(s1) && !Waiting(s2))
    || (s1.ty.Width? && s2.ty.Width? && SameFields(s1, s2))
    || (s1.ty.Precision? && s2.ty.Precision? && SameFields(s1, s2) && s1.precision == s2.precision)
  }

  predicate AlikeTokens(t1: Token, t2: Token, n: nat) {
    && t1.next == n + t2.next && Alike(t1.spec, t2.spec) && t1.spec.ty == t2.spec.ty
    && (t1.spec.ty.Plain? || Waiting(t1.spec) || t1.spec == t2.spec)
  }

  lemma {:induction false} NumberSuffix(fmt: string, n: nat, b: string, i: nat, s1: Spec, s2: Spec)
    requires Suffix(fmt, n, b) && i + 1 <= |b| && SameFields(s1, s2)
    requires At(fmt, n + i) == At(b, i) == '.' && At(fmt, n + i + 1) == At(b, i + 1) && IsDigit(At(b, i + 1))
    ensures DecodePrecision(fmt, n + i, s1) == Moved(DecodePrecision(b, i, s2), n)
  {
    hide DecodeQualifier, Atoi, DigitsEnd, S16;
    DigitsSuffix(fmt, n, b, i + 1, 0);
    var p := S16(Atoi(b, i + 1, 0));
    var q := if p < 0 then 0 else p;
    QualifierSuffix(fmt, n, b, DigitsEnd(b, i + 1), s1.(precision := q), s2.(precision := q));
  }

  lemma {:induction false} NoPrecisionSuffix(fmt: string, n: nat, b: string, i: nat, s1: Spec, s2: Spec)
    requires Suffix(fmt, n, b) && i <= |b| && SameFields(s1, s2) && At(fmt, n + i) == At(b, i) != '.'
    ensures DecodePrecision(fmt, n + i, s1) == Moved(DecodePrecision(b, i, s2), n)
  {
    QualifierSuffix(fmt, n, b, i, s1.(precision := -1), s2.(precision := -1));
  }

  lemma {:induction false} DotSuffix(fmt: string, n: nat, b: string, i: nat, s1: Spec, s2: Spec, j: nat)
    requires Suffix(fmt, n, b) && i < |b| && SameFields(s1, s2) && At(fmt, n + i) == At(b, i) == '.' && j == i + 1
    requires At(fmt, n + j) == At(b, j) && !IsDigit(At(b, j)) && At(b, j) != '*'
    ensures DecodePrecision(fmt, n + i, s1) == Moved(DecodePrecision(b, i, s2), n)
  {
    hide DecodePrecision, DecodeQualifier;
    DotUnfolds(fmt, n + i, s1, n + j);
    DotUnfolds(b, i, s2, j);
    QualifierSuffix(fmt, n, b, j, s1.(precision := -1), s2.(precision := -1));
  }

  lemma {:induction false} DotUnfolds(fmt: string, i: nat, s: Spec, j: nat)
    requires j == i + 1 <= |fmt| && At(fmt, i) == '.' && !IsDigit(At(fmt, j)) && At(fmt, j) != '*'
    ensures DecodePrecision(fmt, i, s) == DecodeQualifier(fmt, j, s.(precision := -1))
  {
    hide DecodeQualifier, Atoi, DigitsEnd;
  }

  lemma MovedAlike(t1: Token, t2: Token, n: nat)
    requires t1 == Moved(t2, n)
    ensures AlikeTokens(t1, t2, n)
  {
  }

  lemma {:induction false} StarSuffix(fmt: string, n: nat, b: string, i: nat, s1: Spec, s2: Spec)
    requires Suffix(fmt, n, b) && i + 2 <= |b| && SameFields(s1, s2)
    requires At(fmt, n + i) == At(b, i) == '.' && At(fmt, n + i + 1) == At(b, i + 1) == '*'
    ensures AlikeTokens(DecodePrecision(fmt, n + i, s1), DecodePrecision(b, i, s2), n)
  {
  }

  lemma {:induction false} PrecisionSuffix(fmt: string, n: nat, b: string, i: nat, s1: Spec, s2: Spec)
    requires Suffix(fmt, n, b) && i <= |b| && SameFields(s1, s2)
    ensures AlikeTokens(DecodePrecision(fmt, n + i, s1), DecodePrecision(b, i, s2), n)
  {
    AtSuffix(fmt, n, b, i);
    AtSuffix(fmt, n, b, i + 1);
    if At(b, i) == '.' && At(b, i + 1) == '*' {
      StarSuffix(fmt, n, b, i, s1, s2);
    } else {
      if At(b, i) != '.' {
        NoPrecisionSuffix(fmt, n, b, i, s1, s2);
      } else if IsDigit(At(b, i + 1)) {
        NumberSuffix(fmt, n, b, i, s1, s2);
      } else {
        DotSuffix(fmt, n, b, i, s1, s2, i + 1);
      }
      MovedAlike(DecodePrecision(fmt, n + i, s1), DecodePrecision(b, i, s2), n);
    }
  }

  lemma {:induction false} PercentSuffix(fmt: string, n: nat, b: string, i: nat, s1: Spec, s2: Spec)
    requires Suffix(fmt, n, b) && i <= |b|
    ensures AlikeTokens(DecodeFlags(fmt, n + i, s1), DecodeFlags(b, i, s2), n)
  {
    hide DecodePrecision, FlagsEnd, FlagsFrom, DigitsEnd, Atoi, S16;
    FlagsSuffix(fmt, n, b, i, NO_FLAGS);
    var j, flags := FlagsEnd(b, i), FlagsFrom(b, i, NO_FLAGS);
    AtSuffix(fmt, n, b, j);
    var r1 := s1.(flags := flags, fieldWidth := -1, ty := Plain);
    var r2 := s2.(flags := flags, fieldWidth := -1, ty := Plain);
    if IsDigit(At(b, j)) {
      DigitsSuffix(fmt, n, b, j, 0);
      var w := S16(Atoi(b, j, 0));
      PrecisionSuffix(fmt, n, b, DigitsEnd(b, j), r1.(fieldWidth := w), r2.(fieldWidth := w));
    } else if At(b, j) != '*' {
      PrecisionSuffix(fmt, n, b, j, r1, r2);
    }
  }

  lemma {:induction false} DecodeSuffix(fmt: string, n: nat, b: string, i: nat, s1: Spec, s2: Spec)
    requires Suffix(fmt, n, b) && i < |b| && Alike(s1, s2)
    ensures AlikeTokens(Decode(fmt, n + i, s1), Decode(b, i, s2), n)
  {
    AtSuffix(fmt, n, b, i);
    if s2.ty.Width? {
      PrecisionSuffix(fmt, n, b, i, WithWidth(s1), WithWidth(s2));
    } else if s2.ty.Precision? {
      QualifierSuffix(fmt, n, b, i, WithPrecision(s1), WithPrecision(s2));
    } else if b[i] == '%' {
      PercentSuffix(fmt, n, b, i + 1, s1.(ty := Plain), s2.(ty := Plain));
    } else {
      LiteralSuffix(fmt, n, b, i);
    }
  }

  /** Alike tokens have the same text, leave alike specifications, and are followed at the same place. */
  lemma {:induction false} TokenSuffix(fmt: string, n: nat, b: string, i: nat, t1: Token, t2: Token, arg: Arg)
    requires Suffix(fmt, n, b) && AlikeTokens(t1, t2, n)
    requires GoodPiece(fmt, Piece(n + i, t1, arg)) && GoodPiece(b, Piece(i, t2, arg))
    ensures TokenText(fmt, Piece(n + i, t1, arg)) == TokenText(b, Piece(i, t2, arg))
    ensures Alike(Kept(t1, arg), Kept(t2, arg)) && NextStart(fmt, t1) == n + NextStart(b, t2)
  {
    if t2.spec.ty.Ptr? {
      AlnumSuffix(fmt, n, b, t2.next);
    }
  }

  lemma {:induction false} FromNext(fmt: string, i: nat, spec: Spec, args: nat -> Arg, k: nat, t: Token, x: string,
                                    j: nat, r: Spec, m: nat, rest: string, all: string)
    requires i < |fmt| && GoodArgs(args) && t == Decode(fmt, i, spec) && GoodPiece(fmt, Piece(i, t, args(k)))
    requires x == TokenText(fmt, Piece(i, t, args(k))) && j == NextStart(fmt, t)
    requires r == Kept(t, args(k)) && m == k + TakesArg(t.spec.ty)
    requires rest == From(fmt, j, r, args, m) && all == From(fmt, i, spec, args, k)
    ensures all == x + rest
  {
    FromStep(fmt, i, spec, args, k, t);
  }

  lemma {:induction false} PieceIsGood(fmt: string, i: nat, spec: Spec, t: Token, arg: Arg)
    requires i < |fmt| && arg.word < WORD64 && t == Decode(fmt, i, spec)
    ensures GoodPiece(fmt, Piece(i, t, arg))
  {
  }

  /** One step of both. */
  lemma {:induction false} StepSuffix(fmt: string, n: nat, at: nat, b: string, i: nat, s1: Spec, s2: Spec, arg: Arg,
                                      t1: Token, t2: Token, j: nat, r1: Spec, r2: Spec) returns (x: string)
    requires Suffix(fmt, n, b) && i < |b| && at == n + i < |fmt| && Alike(s1, s2) && arg.word < WORD64
    requires t1 == Decode(fmt, at, s1) && t2 == Decode(b, i, s2)
    requires j == NextStart(b, t2) && r1 == Kept(t1, arg) && r2 == Kept(t2, arg)
    ensures Alike(r1, r2) && i <= j <= |b| && (i == j ==> Pending(r2) < Pending(s2))
    ensures NextStart(fmt, t1) == n + j && t1.spec.ty == t2.spec.ty
    ensures GoodPiece(fmt, Piece(at, t1, arg)) && x == TokenText(fmt, Piece(at, t1, arg))
    ensures GoodPiece(b, Piece(i, t2, arg)) && x == TokenText(b, Piece(i, t2, arg))
  {
    PieceIsGood(fmt, at, s1, t1, arg);
    PieceIsGood(b, i, s2, t2, arg);
    DecodeSuffix(fmt, n, b, i, s1, s2);
    TokenSuffix(fmt, n, b, i, t1, t2, arg);
    DecodeProgress(b, i, s2, arg);
    x := TokenText(fmt, Piece(at, t1, arg));
  }

  /** So both render one text, and go on alike. */
  lemma {:induction false} BothNext(fmt: string, n: nat, at: nat, b: string, i: nat, s1: Spec, s2: Spec,
                                    args: nat -> Arg, k: nat, all1: string, all2: string)
    returns (j: nat, r1: Spec, r2: Spec, m: nat)
    requires Suffix(fmt, n, b) && i < |b| && at == n + i < |fmt| && Alike(s1, s2) && GoodArgs(args)
    requires all1 == From(fmt, at, s1, args, k) && all2 == From(b, i, s2, args, k)
    ensures Alike(r1, r2) && i <= j <= |b| && (i == j ==> Pending(r2) < Pending(s2))
    ensures From(fmt, n + j, r1, args, m) == From(b, j, r2, args, m) ==> all1 == all2
  {
    hide Decode, From, Kept, Alike, Suffix;
    var t1, t2 := Decode(fmt, at, s1), Decode(b, i, s2);
    j, r1, r2, m := NextStart(b, t2), Kept(t1, args(k)), Kept(t2, args(k)), k + TakesArg(t2.spec.ty);
    var x := StepSuffix(fmt, n, at, b, i, s1, s2, args(k), t1, t2, j, r1, r2);
    FromNext(fmt, at, s1, args, k, t1, x, n + j, r1, m, From(fmt, n + j, r1, args, m), all1);
    FromNext(b, i, s2, args, k, t2, x, j, r2, m, From(b, j, r2, args, m), all2);
  }

  lemma {:induction false} FromEnd(fmt: string, i: nat, spec: Spec, args: nat -> Arg, k: nat)
    requires i == |fmt| && GoodArgs(args)
    ensures From(fmt, i, spec, args, k) == ""
  {
  }

  /** What a format renders from a position on is what its suffix renders. */
  lemma {:induction false} FromSuffix(fmt: string, n: nat, at: nat, b: string, i: nat, s1: Spec, s2: Spec,
                                      args: nat -> Arg, k: nat, all1: string, all2: string)
    requires Suffix(fmt, n, b) && i <= |b| && at == n + i <= |fmt| && Alike(s1, s2) && GoodArgs(args)
    requires all1 == From(fmt, at, s1, args, k) && all2 == From(b, i, s2, args, k)
    ensures all1 == all2
    decreases |b| - i, Pending(s2)
  {
    hide From, Decode, Alike, GoodArgs;
    if i < |b| {
      var j, r1, r2, m := BothNext(fmt, n, at, b, i, s1, s2, args, k, all1, all2);
      FromSuffix(fmt, n, n + j, b, j, r1, r2, args, m, From(fmt, n + j, r1, args, m), From(b, j, r2, args, m));
    } else {
      FromEnd(fmt, at, s1, args, k);
      FromEnd(b, i, s2, args, k);
    }
  }

  // ---------- one directive ----------

  function Value(arg: Arg): int {
    S16(AsInt(arg.word))
  }

  function Stars(f: Field): nat {
    if f.Star? then 1 else 0
  }

  /** Where the decoder stands between two tokens. */
  datatype Place = Place(i: nat, spec: Spec, k: nat)

  /** The specification when the width has been read. */
  function Widened(d: Directive, spec: Spec, w: int): Spec {
    Flagged(d, spec).(fieldWidth := WidthOf(d, w),
                      flags := WithFlags(NO_FLAGS, d.flags).(left := '-' in d.flags || (d.width.Star? && w < 0)))
  }

  /** A star renders nothing. */
  lemma {:induction false} StarNext(fmt: string, i: nat, spec: Spec, args: nat -> Arg, k: nat, t: Token, j: nat,
                                    r: Spec, rest: string, all: string)
    requires i < |fmt| && GoodArgs(args) && t == Decode(fmt, i, spec) && Waiting(t.spec)
    requires j == t.next && r == Kept(t, args(k))
    requires rest == From(fmt, j, r, args, k + 1) && all == From(fmt, i, spec, args, k)
    ensures all == rest
  {
    PieceIsGood(fmt, i, spec, t, args(k));
    FromNext(fmt, i, spec, args, k, t, "", j, r, k + 1, rest, all);
  }

  lemma {:induction false} WidthToken(fmt: string, i: nat, d: Directive, spec: Spec, at: nat, rest: string)
    requires Good(d) && Here(fmt, i, Written(d)) && !Waiting(spec) && at == i + 1 + |d.flags| + |WidthText(d)|
    requires rest == PrecisionText(d) + Ending(d) && i < |fmt|
    ensures Here(fmt, at, rest)
    ensures Decode(fmt, i, spec) ==
      if d.width.Star? then Token(at, Flagged(d, spec).(ty := Width))
      else DecodePrecision(fmt, at, Flagged(d, spec).(fieldWidth := WidthOf(d, 0)))
  {
    hide Decode, DecodeFlags, DecodePrecision;
    Starts(fmt, i, d, spec);
    WidthRead(fmt, i + 1, d, spec.(ty := Plain), rest, WidthText(d) + rest, i + 1 + |d.flags|, at);
  }

  lemma {:induction false} WidthKept(d: Directive, spec: Spec, t: Token, arg: Arg)
    requires t.spec == if d.width.Star? then Flagged(d, spec).(ty := Width) else Flagged(d, spec)
    ensures d.width.Star? ==> Kept(t, arg).ty.Width? && WithWidth(Kept(t, arg)) == Widened(d, spec, Value(arg))
    ensures !d.width.Star? ==> Flagged(d, spec).(fieldWidth := WidthOf(d, 0)) == Widened(d, spec, Value(arg))
  {
  }

  lemma {:induction false} WidthResumes(fmt: string, i: nat, spec: Spec)
    requires i < |fmt| && spec.ty.Width?
    ensures Decode(fmt, i, spec) == DecodePrecision(fmt, i, WithWidth(spec))
  {
  }

  lemma {:induction false} HereBefore(fmt: string, i: nat, s: string)
    requires Here(fmt, i, s) && s != ""
    ensures i < |fmt|
  {
  }

  /** Where the flags and the width have been read: at once, or after a star and its argument. */
  lemma {:induction false} FirstStar(fmt: string, i: nat, d: Directive, spec: Spec, args: nat -> Arg, k: nat,
                                     at: nat, rest: string, p: Place, all: string)
    requires Good(d) && Here(fmt, i, Written(d)) && !Waiting(spec) && at == i + 1 + |d.flags| + |WidthText(d)|
    requires rest == PrecisionText(d) + Ending(d) && i < |fmt| && GoodArgs(args) && all == From(fmt, i, spec, args, k)
    requires p == if d.width.Star? then Place(at, Kept(Decode(fmt, i, spec), args(k)), k + 1) else Place(i, spec, k)
    ensures Here(fmt, at, rest) && p.i < |fmt| && all == From(fmt, p.i, p.spec, args, p.k)
    ensures Decode(fmt, p.i, p.spec) == DecodePrecision(fmt, at, Widened(d, spec, Value(args(k))))
  {
    hide From, Decode, DecodePrecision, Widened, Flagged, Good, Written, Kept, GoodArgs, Here, PrecisionText,
      WidthText, Value, WithWidth;
    var t := Decode(fmt, i, spec);
    WidthToken(fmt, i, d, spec, at, rest);
    HereBefore(fmt, at, rest);
    if d.width.Star? {
      WidthKept(d, spec, t, args(k));
      StarNext(fmt, i, spec, args, k, t, at, p.spec, From(fmt, at, p.spec, args, k + 1), all);
      WidthResumes(fmt, at, p.spec);
    } else {
      WidthKept(d, spec, t.(spec := Flagged(d, spec)), args(k));
    }
  }

  lemma {:induction false} PrecisionKept(d: Directive, read: Spec, t: Token, arg: Arg)
    requires t.spec == read.(precision := -1, ty := Precision) && d.precision.Star?
    ensures Kept(t, arg).ty.Precision?
    ensures WithPrecision(Kept(t, arg)).flags == read.flags
    ensures Completed(d, WithPrecision(Kept(t, arg))) == Completed(d, read.(precision := PrecisionOf(d, Value(arg))))
  {
  }

  lemma {:induction false} PrecisionResumes(fmt: string, i: nat, d: Directive, at: nat, rest: string, spec: Spec)
    requires Good(d) && rest == PrecisionText(d) + Ending(d) && Here(fmt, at, rest) && d.precision.Star? && i == at + 2
    requires spec.ty.Precision? && !WithPrecision(spec).flags.sign && !WithPrecision(spec).flags.small
    ensures i < |fmt| && Decode(fmt, i, spec) == Token(After(d, at + |rest|), Completed(d, WithPrecision(spec)))
  {
    hide DecodeQualifier;
    PrecisionStarts(fmt, at, d, rest);
    EndingRead(fmt, i, d, WithPrecision(spec));
  }

  /** Where the precision has been read likewise. */
  lemma {:induction false} SecondStar(fmt: string, d: Directive, args: nat -> Arg, at: nat, rest: string, read: Spec,
                                      p: Place, t: Token, r: Place, all: string)
    requires Good(d) && rest == PrecisionText(d) + Ending(d) && Here(fmt, at, rest) && GoodArgs(args) && p.i < |fmt|
    requires t == Decode(fmt, p.i, p.spec) == DecodePrecision(fmt, at, read) && !read.flags.sign && !read.flags.small
    requires r == if d.precision.Star? then Place(at + 2, Kept(t, args(p.k)), p.k + 1) else p
    requires all == From(fmt, p.i, p.spec, args, p.k)
    ensures r.i < |fmt| && all == From(fmt, r.i, r.spec, args, r.k)
    ensures Decode(fmt, r.i, r.spec) ==
      Token(After(d, at + |rest|), Completed(d, read.(precision := PrecisionOf(d, Value(args(p.k))))))
  {
    hide From, Decode, DecodePrecision, Completed, Good, Kept, GoodArgs, Here, PrecisionText, After, WithPrecision,
      Value;
    PrecisionRead(fmt, at, d, read, rest);
    if d.precision.Star? {
      PrecisionKept(d, read, t, args(p.k));
      PrecisionResumes(fmt, at + 2, d, at, rest, r.spec);
      StarNext(fmt, p.i, p.spec, args, p.k, t, at + 2, r.spec, From(fmt, at + 2, r.spec, args, p.k + 1), all);
    }
  }

  lemma {:induction false} OneLess(fmt: string, i: nat, end: nat)
    requires i < |fmt| && fmt[i] == 'p' && end == i + 1 && !IsAlnum(At(fmt, end))
    ensures AlnumEnd(fmt, i) == end
  {
    assert AlnumEnd(fmt, end) == end;
  }

  /** A conversion ends where the directive does, except that letters and digits would follow after p. */
  lemma {:induction false} ConversionNext(fmt: string, i: nat, d: Directive, t: Token, end: nat, arg: Arg)
    requires i <= t.next && t.next == After(d, end) && t.spec.ty == TypeOf(d) && KnownBase(t.spec)
    requires end <= |fmt| && (d.conversion == 'p' ==> t.next < |fmt| && fmt[t.next] == 'p' && !IsAlnum(At(fmt, end)))
    requires arg.word < WORD64
    ensures !Waiting(t.spec) && GoodPiece(fmt, Piece(i, t, arg)) && NextStart(fmt, t) == end && Kept(t, arg) == t.spec
    ensures TokenText(fmt, Piece(i, t, arg)) == ConversionText(t.spec, arg)
  {
    if d.conversion == 'p' {
      OneLess(fmt, t.next, end);
    }
  }

  lemma {:induction false} DecodeBounds(fmt: string, i: nat, spec: Spec, t: Token)
    requires i < |fmt| && t == Decode(fmt, i, spec) && !t.spec.ty.Plain? && !Waiting(t.spec)
    ensures i <= t.next <= |fmt| && KnownBase(t.spec) && (t.spec.ty.Ptr? ==> t.next < |fmt| && fmt[t.next] == 'p')
  {
    hide DecodePrecision, DecodeQualifier, DecodeDefault;
  }

  lemma {:induction false} ConversionFrom(fmt: string, i: nat, spec: Spec, args: nat -> Arg, k: nat, d: Directive,
                                          t: Token, end: nat, all: string)
    requires i < |fmt| && t == Decode(fmt, i, spec) && t.next == After(d, end) && t.spec.ty == TypeOf(d)
    requires end <= |fmt| && (d.conversion == 'p' ==> !IsAlnum(At(fmt, end))) && GoodArgs(args)
    requires all == From(fmt, i, spec, args, k)
    ensures KnownBase(t.spec) && !Waiting(t.spec)
    ensures all == ConversionText(t.spec, args(k)) + From(fmt, end, t.spec, args, k + TakesArg(t.spec.ty))
  {
    hide From, Decode, ConversionText, TokenText, After, Kept;
    DecodeBounds(fmt, i, spec, t);
    ConversionNext(fmt, i, d, t, end, args(k));
    FromNext(fmt, i, spec, args, k, t, TokenText(fmt, Piece(i, t, args(k))), end, t.spec, k + TakesArg(t.spec.ty),
             From(fmt, end, t.spec, args, k + TakesArg(t.spec.ty)), all);
  }

  lemma {:induction false} Meant(d: Directive, spec: Spec, w: int, q: int)
    ensures !Widened(d, spec, w).flags.sign && !Widened(d, spec, w).flags.small
    ensures Completed(d, Widened(d, spec, w).(precision := PrecisionOf(d, q))) == Meaning(d, w, q)
  {
    AllParts(d, Widened(d, spec, w).(precision := PrecisionOf(d, q)), w, q);
  }

  lemma {:induction false} Lengths(fmt: string, i: nat, d: Directive, at: nat, rest: string, end: nat)
    requires Good(d) && Here(fmt, i, Written(d)) && at == i + 1 + |d.flags| + |WidthText(d)|
    requires rest == PrecisionText(d) + Ending(d) && end == i + |Written(d)|
    ensures i < |fmt| && end == at + |rest| <= |fmt|
  {
  }

  /** A directive is rendered as what it means for its arguments, and what follows it with the arguments after them.
      No letter or digit may follow after p. */
  lemma {:induction false} DirectiveFrom(fmt: string, i: nat, d: Directive, spec: Spec, args: nat -> Arg, k: nat,
                                         end: nat, w: int, q: int, m: nat)
    requires Good(d) && Here(fmt, i, Written(d)) && !Waiting(spec) && GoodArgs(args) && end == i + |Written(d)|
    requires d.conversion == 'p' ==> !IsAlnum(At(fmt, end))
    requires w == Value(args(k)) && q == Value(args(k + Stars(d.width)))
    requires m == k + Stars(d.width) + Stars(d.precision)
    ensures end <= |fmt| && KnownBase(Meaning(d, w, q)) && !Waiting(Meaning(d, w, q))
    ensures From(fmt, i, spec, args, k) ==
      ConversionText(Meaning(d, w, q), args(m)) +
      From(fmt, end, Meaning(d, w, q), args, m + TakesArg(Meaning(d, w, q).ty))
  {
    hide From, Decode, DecodePrecision, ConversionText, Good, Here, Written, PrecisionText, WidthText, Widened,
      Completed, Kept, GoodArgs, Value, After;
    var at, rest := i + 1 + |d.flags| + |WidthText(d)|, PrecisionText(d) + Ending(d);
    Lengths(fmt, i, d, at, rest, end);
    var all := From(fmt, i, spec, args, k);
    var t := Decode(fmt, i, spec);
    var p := if d.width.Star? then Place(at, Kept(t, args(k)), k + 1) else Place(i, spec, k);
    FirstStar(fmt, i, d, spec, args, k, at, rest, p, all);
    Meant(d, spec, w, q);
    t := Decode(fmt, p.i, p.spec);
    var r := if d.precision.Star? then Place(at + 2, Kept(t, args(p.k)), p.k + 1) else p;
    SecondStar(fmt, d, args, at, rest, Widened(d, spec, w), p, t, r, all);
    ConversionFrom(fmt, r.i, r.spec, args, r.k, d, Decode(fmt, r.i, r.spec), end, all);
  }

  // ---------- literal text, a directive, and the rest ----------

  /** Arguments from a position on. */
  ghost predicate Later(args: nat -> Arg, m: nat, more: nat -> Arg) {
    forall j: nat :: more(j) == args(m + j)
  }

  lemma {:induction false} TokensLater(fmt: string, i: nat, spec: Spec, args: nat -> Arg, m: nat, more: nat -> Arg,
                                       k: nat, n: nat)
    requires i <= |fmt| && GoodArgs(args) && GoodArgs(more) && Later(args, m, more) && n == m + k
    ensures Tokens(fmt, i, spec, args, n) == Tokens(fmt, i, spec, more, k)
    decreases |fmt| - i, Pending(spec)
  {
    hide Decode;
    if i < |fmt| {
      var t := Decode(fmt, i, spec);
      DecodeProgress(fmt, i, spec, args(n));
      assert args(n) == more(k);
      var takes := TakesArg(t.spec.ty);
      TokensLater(fmt, NextStart(fmt, t), Kept(t, args(n)), args, m, more, k + takes, n + takes);
    }
  }

  lemma {:induction false} LiteralEnds(fmt: string, i: nat, end: nat)
    requires i <= end <= |fmt| && '%' !in fmt[i..end] && (end < |fmt| ==> fmt[end] == '%')
    ensures LiteralEnd(fmt, i) == end
    decreases end - i
  {
    if i < end {
      assert fmt[i] == fmt[i..end][0] && fmt[i + 1..end] == fmt[i..end][1..];
      LiteralEnds(fmt, i + 1, end);
    }
  }

  /** Text without a percent sign stands for itself. */
  lemma {:induction false} LiteralFrom(fmt: string, lit: string, args: nat -> Arg, end: nat) returns (spec: Spec)
    requires lit <= fmt && '%' !in lit && |lit| == end < |fmt| && fmt[end] == '%' && GoodArgs(args)
    ensures !Waiting(spec) && From(fmt, 0, FirstSpec(), args, 0) == lit + From(fmt, end, spec, args, 0)
  {
    spec := FirstSpec();
    assert fmt[0..end] == lit;
    if lit != "" {
      LiteralEnds(fmt, 0, end);
      assert fmt[0] == lit[0];
      var t := Decode(fmt, 0, spec);
      assert t.next == end && t.spec.ty.Plain?;
      PieceIsGood(fmt, 0, spec, t, args(0));
      spec := t.spec;
      FromNext(fmt, 0, FirstSpec(), args, 0, t, lit, end, t.spec, 0, From(fmt, end, t.spec, args, 0),
               From(fmt, 0, FirstSpec(), args, 0));
    }
  }

  lemma {:induction false} InPieces(fmt: string, lit: string, d: Directive, rest: string, w: string, end: nat)
    requires w == Written(d) && fmt == lit + (w + rest) && end == |lit| + |w|
    ensures lit <= fmt && |lit| < end <= |fmt| && fmt[|lit|] == '%' && Here(fmt, |lit|, w) && Suffix(fmt, end, rest)
    ensures At(fmt, end) == At(rest, 0)
  {
    assert w[0] == '%';
    assert fmt[end..] == rest;
    assert fmt[|lit|..|lit| + |w|] == w;
    if rest != "" {
      assert fmt[end] == rest[0];
    }
  }

  /** The rest, rendered on its own. */
  lemma {:induction false} RestFrom(fmt: string, end: nat, rest: string, spec: Spec, args: nat -> Arg, m: nat,
                                    more: nat -> Arg)
    requires Suffix(fmt, end, rest) && !Waiting(spec) && GoodArgs(args) && Later(args, m, more)
    ensures GoodArgs(more) && From(fmt, end, spec, args, m) == Rendered(rest, more)
  {
    hide Decode, Tokens, Text;
    var first := FirstSpec();
    forall j: nat ensures more(j).word < WORD64 {
      assert more(j) == args(m + j);
    }
    FromSuffix(fmt, end, end, rest, 0, spec, first, args, m, From(fmt, end, spec, args, m),
               From(rest, 0, first, args, m));
    TokensLater(rest, 0, first, args, m, more, 0, m);
  }

  lemma {:induction false} FirstFrom(fmt: string, args: nat -> Arg)
    requires GoodArgs(args)
    ensures Rendered(fmt, args) == From(fmt, 0, FirstSpec(), args, 0)
  {
  }

  /** Literal text, a directive and a rest are rendered as the text, the meaning of the directive for its arguments,
      and the rest with the arguments that follow. No letter or digit may follow after p. */
  lemma {:induction false} RenderedDirective(fmt: string, lit: string, d: Directive, rest: string, args: nat -> Arg,
                                             more: nat -> Arg, w: int, q: int, m: nat)
    requires '%' !in lit && Good(d) && fmt == lit + (Written(d) + rest) && GoodArgs(args)
    requires d.conversion == 'p' ==> !IsAlnum(At(rest, 0))
    requires w == Value(args(0)) && q == Value(args(Stars(d.width))) && m == Stars(d.width) + Stars(d.precision)
    requires Later(args, m + TakesArg(TypeOf(d)), more)
    ensures GoodArgs(more) && KnownBase(Meaning(d, w, q))
    ensures Rendered(fmt, args) == lit + ConversionText(Meaning(d, w, q), args(m)) + Rendered(rest, more)
  {
    hide From, Good, Here, Written, GoodArgs, Later, Suffix, ConversionText, Value;
    var text, start := Written(d), |lit|;
    var end, meaning := start + |text|, Meaning(d, w, q);
    InPieces(fmt, lit, d, rest, text, end);
    var spec := LiteralFrom(fmt, lit, args, start);
    DirectiveFrom(fmt, start, d, spec, args, 0, end, w, q, m);
    RestFrom(fmt, end, rest, meaning, args, m + TakesArg(meaning.ty), more);
    FirstFrom(fmt, args);
  }
}
