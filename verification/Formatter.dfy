/**
 The bounded formatter of the guest library (corelib/corelib.c:15-150): it writes the
 beginning of what an unbounded one would write.
 */
module Formatter {
  import opened Common
  import opened Numerals
  import opened TileMap

  /** One argument of the list. Strings stand for the characters before the terminator. */
  datatype Arg = Str(s: string) | Chr(c: int) | Signed(i: int) | Unsigned(u: u32) | Pointer(v: u32)

  predicate InRange(a: Arg) {
    match a
    case Signed(i) => -0x8000_0000 <= i <= 0x7fff_ffff
    case Chr(c) => -0x8000_0000 <= c <= 0x7fff_ffff
    case _ => true
  }

  // ---- The unbounded form ----

  /** The digits of an unsigned number. They are counted in a signed one, so numbers
      from 2^31 on have none. */
  function Unsigned32(v: u32, base: nat): string
    requires IsBase(base)
  {
    if v < 0x8000_0000 then Numeral(v, base) else ""
  }

  /** The magnitude is computed by negation, which leaves the least number as it is. */
  function Signed32(i: int): string
    requires -0x8000_0000 <= i <= 0x7fff_ffff
  {
    if i < 0 then "-" + Unsigned32(-i, 10) else Unsigned32(i, 10)
  }

  /** The eight digits of a pointer, the lowest first. */
  function Nibbles(v: u32, n: nat): (s: string)
    ensures |s| == n
  {
    if n == 0 then "" else [DigitOf(v % 16)] + Nibbles(v / 16, n - 1)
  }

  function AsChar(c: int): char {
    (c % 256) as char
  }

  /** What the first character or directive of a format writes, how long it is and how
      many arguments it takes. */
  datatype Piece = Piece(text: string, length: nat, taken: nat)

  function Kind(a: Arg): char {
    match a
    case Str(_) => 's'
    case Chr(_) => 'c'
    case Signed(_) => 'd'
    case Unsigned(_) => 'u'
    case Pointer(_) => 'p'
  }

  predicate TakesArgument(c: char) {
    c == 's' || c == 'c' || c == 'd' || c == 'u' || c == 'x' || c == 'p'
  }

  /** The argument for a directive is there and of its type, as va_arg demands. */
  predicate Fits(fmt: string, args: seq<Arg>) {
    |fmt| >= 2 && fmt[0] == '%' && TakesArgument(fmt[1]) ==>
      args != [] && InRange(args[0]) && Kind(args[0]) == if fmt[1] == 'x' then 'u' else fmt[1]
  }

  function First(fmt: string, args: seq<Arg>): (p: Piece)
    requires fmt != [] && Fits(fmt, args)
    ensures 1 <= p.length <= |fmt| && p.taken <= |args|
  {
    if fmt[0] != '%' then Piece([fmt[0]], 1, 0)
    else if |fmt| == 1 then Piece("%", 1, 0)
    else match fmt[1]
      case '%' => Piece("%", 2, 0)
      case 's' => Piece(args[0].s, 2, 1)
      case 'c' => Piece([AsChar(args[0].c)], 2, 1)
      case 'd' => Piece(Signed32(args[0].i), 2, 1)
      case 'u' => Piece(Unsigned32(args[0].u, 10), 2, 1)
      case 'x' => Piece(Unsigned32(args[0].u, 16), 2, 1)
      case 'p' => Piece("0x" + Nibbles(args[0].v, 8), 2, 1)
      case other => Piece(['%', other], 2, 0)
  }

  predicate Conforms(fmt: string, args: seq<Arg>)
    decreases |fmt|
  {
    fmt == [] ||
    (Fits(fmt, args) && Conforms(fmt[First(fmt, args).length..], args[First(fmt, args).taken..]))
  }

  function Formatted(fmt: string, args: seq<Arg>): string
    requires Conforms(fmt, args)
    decreases |fmt|
  {
    if fmt == [] then ""
    else
      var p := First(fmt, args);
      p.text + Formatted(fmt[p.length..], args[p.taken..])
  }

  // ---- What the digits mean ----

  /** The digits denote the number exactly if it is below 2^31. */
  lemma DigitsDenote(v: u32, base: nat)
    requires IsBase(base)
    ensures AllDigits(Unsigned32(v, base), base)
    ensures Unsigned32(v, base) != "" && Value(Unsigned32(v, base), base) == v <==> v < 0x8000_0000
    ensures v < 0x8000_0000 ==> (Unsigned32(v, base)[0] == '0' <==> v == 0)
  {
    if v < 0x8000_0000 {
      NumeralDenotes(v, base);
      NumeralIsShortest(v, base);
    }
  }

  lemma SignedDigitsDenote(i: int)
    requires -0x8000_0000 <= i <= 0x7fff_ffff
    ensures i >= 0 ==> AllDigits(Signed32(i), 10) && Value(Signed32(i), 10) == i
    ensures -0x8000_0000 < i < 0 ==>
              Signed32(i)[0] == '-' && AllDigits(Signed32(i)[1..], 10) && Value(Signed32(i)[1..], 10) == -i
    ensures i == -0x8000_0000 ==> Signed32(i) == "-"
  {
    if i >= 0 {
      NumeralDenotes(i, 10);
    } else if i > -0x8000_0000 {
      NumeralDenotes(-i, 10);
      assert Signed32(i)[1..] == Numeral(-i, 10);
    }
  }

  /** What the directives write, and that all of them are two characters long. */
  lemma DirectiveTexts(c: char, rest: string, args: seq<Arg>)
    requires Fits(['%', c] + rest, args)
    ensures var p := First(['%', c] + rest, args);
            && p.length == 2
            && (c in {'s', 'c', 'd', 'u', 'x', 'p'} <==> p.taken == 1) && p.taken <= 1
            && (c == 's' ==> args[0].Str? && p.text == args[0].s)
            && (c == 'c' ==> args[0].Chr? && |p.text| == 1 && p.text[0] as int == args[0].c % 256)
            && (c == 'd' ==> args[0].Signed? && p.text == Signed32(args[0].i))
            && (c == 'u' ==> args[0].Unsigned? && p.text == Unsigned32(args[0].u, 10))
            && (c == 'x' ==> args[0].Unsigned? && p.text == Unsigned32(args[0].u, 16))
            && (c == 'p' ==> args[0].Pointer? && p.text == ['0', 'x'] + Nibbles(args[0].v, 8))
            && (c == '%' ==> p.text == ['%'])
            && (c !in {'s', 'c', 'd', 'u', 'x', 'p', '%'} ==> p.text == ['%', c])
  {
    assert (['%', c] + rest)[1] == c;
  }

  /** Anything else writes itself, and so does a last %. */
  lemma PlainTexts(c: char, rest: string, args: seq<Arg>)
    requires Fits([c] + rest, args) && (c != '%' || rest == [])
    ensures First([c] + rest, args) == Piece([c], 1, 0)
  {
  }

  // ---- Writing ----

  /** after is before with text written from p on, as far as it fits in front of end. */
  ghost predicate Wrote(before: seq<char>, after: seq<char>, p: nat, end: nat, text: string) {
    && |after| == |before|
    && forall j :: 0 <= j < |after| ==> after[j] == if p <= j < end && j < p + |text| then text[j - p] else before[j]
  }

  lemma WroteBoth(a: seq<char>, b: seq<char>, c: seq<char>, p: nat, end: nat, s: string, t: string)
    requires Wrote(a, b, p, end, s) && Wrote(b, c, p + |s|, end, t)
    ensures Wrote(a, c, p, end, s + t)
  {
  }

  method Put(buffer: array<char>, p: nat, end: nat, c: char) returns (q: nat)
    requires p <= end < buffer.Length
    modifies buffer
    ensures q == (if p < end then p + 1 else p) && Wrote(old(buffer[..]), buffer[..], p, end, [c])
  {
    q := p;
    if p < end {
      buffer[p] := c;
      q := p + 1;
    }
  }

  /** The number of digits, counted in a signed number. */
  method CountDigits(val: u32, base: nat) returns (len: nat)
    requires IsBase(base) && val != 0
    ensures len == |Unsigned32(val, base)|
  {
    len := 0;
    var tmp := if val < 0x8000_0000 then val as int else val as int - 0x1_0000_0000;
    while tmp > 0
      invariant tmp < 0x8000_0000
      invariant val >= 0x8000_0000 ==> tmp < 0 && len == 0
      invariant val < 0x8000_0000 ==> tmp >= 0 && len + (if tmp > 0 then |Numeral(tmp, base)| else 0) == |Numeral(val, base)|
      decreases tmp
    {
      len := len + 1;
      tmp := tmp / base;
    }
  }

  /** The digits, last one first, each where it belongs if that is in front of end. */
  method WriteDigits(buffer: array<char>, p: nat, end: nat, val: u32, base: nat, len: nat)
    requires IsBase(base) && p <= end < buffer.Length && len == |Unsigned32(val, base)| && val != 0
    modifies buffer
    ensures Wrote(old(buffer[..]), buffer[..], p, end, Unsigned32(val, base))
  {
    ghost var digits := Unsigned32(val, base);
    var rest: nat := val;
    for i := len downto 0
      invariant i > 0 ==> rest > 0 && Numeral(rest, base) == digits[..i]
      invariant forall j :: 0 <= j < buffer.Length ==>
                  buffer[j] == if p + i <= j < end && j < p + len then digits[j - p] else old(buffer[j])
    {
      LastDigit(rest, base, digits, i);
      if p + i < end {
        buffer[p + i] := DigitOf(rest % base);
      }
      rest := rest / base;
    }
  }

  lemma LastDigit(v: nat, base: nat, digits: string, i: nat)
    requires IsBase(base) && i < |digits| && v > 0 && Numeral(v, base) == digits[..i + 1]
    ensures digits[i] == DigitOf(v % base)
    ensures i > 0 ==> v / base > 0 && Numeral(v / base, base) == digits[..i]
  {
    assert digits[..i + 1][i] == digits[i];
    if v >= base {
      assert digits[..i + 1][..i] == digits[..i];
      assert (Numeral(v / base, base) + [DigitOf(v % base)])[..i] == Numeral(v / base, base);
    }
  }

  /** write_unsigned_decimal, and the same for hexadecimal. */
  method WriteUnsigned(buffer: array<char>, p: nat, end: nat, val: u32, base: nat) returns (q: nat)
    requires IsBase(base) && p <= end < buffer.Length
    modifies buffer
    ensures Wrote(old(buffer[..]), buffer[..], p, end, Unsigned32(val, base))
    ensures if p + |Unsigned32(val, base)| <= end then q == p + |Unsigned32(val, base)| else q >= end
  {
    if val == 0 {
      ZeroDigit(base);
      q := Put(buffer, p, end, '0');
      return;
    }
    var len := CountDigits(val, base);
    WriteDigits(buffer, p, end, val, base, len);
    return p + len;
  }

  lemma ZeroDigit(base: nat)
    requires IsBase(base)
    ensures Unsigned32(0, base) == ['0']
  {
    assert DIGITS[0] == '0';
  }

  method WriteString(buffer: array<char>, p: nat, end: nat, val: string) returns (q: nat)
    requires p <= end < buffer.Length
    modifies buffer
    ensures Wrote(old(buffer[..]), buffer[..], p, end, val)
    ensures q == if p + |val| <= end then p + |val| else end
  {
    q := p;
    var i := 0;
    while i < |val| && q < end
      invariant i <= |val| && q == p + i <= end
      invariant Wrote(old(buffer[..]), buffer[..], p, end, val[..i])
    {
      buffer[q] := val[i];
      q := q + 1;
      i := i + 1;
    }
    assert val[..|val|] == val;
  }

  method WritePointer(buffer: array<char>, p: nat, end: nat, val: u32) returns (q: nat)
    requires p <= end < buffer.Length
    modifies buffer
    ensures Wrote(old(buffer[..]), buffer[..], p, end, "0x" + Nibbles(val, 8))
    ensures if p + 10 <= end then q == p + 10 else q >= end
  {
    ghost var before := buffer[..];
    q := Put(buffer, p, end, '0');
    ghost var middle := buffer[..];
    var r := Put(buffer, q, end, 'x');
    ghost var digits := Nibbles(val, 8);
    ghost var start := buffer[..];
    for i := 8 downto 0
      invariant forall j :: 0 <= j < buffer.Length ==>
                  buffer[j] == if r + i <= j < end && j < r + 8 then digits[j - r] else start[j]
    {
      NibbleAt(val, 8, i);
      if r + i < end {
        buffer[r + i] := DigitOf((val / Pow16(i)) % 16);
      }
    }
    PrefixThenDigits(before, middle, start, buffer[..], p, q, r, end, digits);
    return r + 8;
  }

  lemma PrefixThenDigits(a: seq<char>, b: seq<char>, c: seq<char>, d: seq<char>, p: nat, q: nat, r: nat, end: nat, digits: string)
    requires |digits| == 8 && p <= end && q == (if p < end then p + 1 else p) && r == (if q < end then q + 1 else q)
    requires Wrote(a, b, p, end, ['0']) && Wrote(b, c, q, end, ['x'])
    requires |d| == |c| && forall j :: 0 <= j < |d| ==> d[j] == if r <= j < end && j < r + 8 then digits[j - r] else c[j]
    ensures Wrote(a, d, p, end, "0x" + digits)
  {
    var text := "0x" + digits;
    assert text[0] == '0' && text[1] == 'x' && forall k :: 0 <= k < 8 ==> text[k + 2] == digits[k];
  }

  function Pow16(n: nat): (r: nat)
    ensures r > 0
  {
    if n == 0 then 1 else 16 * Pow16(n - 1)
  }

  /** Shifting right by 4 * i bits and keeping four gives digit i from the right. */
  lemma {:induction false} NibbleAt(v: u32, n: nat, i: nat)
    requires i < n
    ensures Nibbles(v, n)[i] == DigitOf((v / Pow16(i)) % 16)
  {
    if i > 0 {
      NibbleAt(v / 16, n - 1, i - 1);
      DivideTwice(v, Pow16(i - 1));
    }
  }

  lemma DivideTwice(v: nat, d: nat)
    requires d > 0
    ensures (v / 16) / d == v / (16 * d)
  {
    var q, r := (v / 16) / d, (v / 16) % d;
    assert v == 16 * (q * d + r) + v % 16;
    assert v == q * (16 * d) + (16 * r + v % 16);
    assert 16 * r + v % 16 < 16 * d;
    QuotientIsUnique(v / (16 * d), v % (16 * d), q, 16 * r + v % 16, 16 * d);
  }

  // ---- The whole format ----

  /** The state of the formatter: what has been put in the buffer is the beginning of
      what an unbounded one has written so far, and nothing beyond it is touched. */
  ghost predicate Begins(original: seq<char>, now: seq<char>, p: nat, end: nat, sofar: string) {
    p == (if |sofar| < end then |sofar| else end) && Wrote(original, now, 0, end, sofar)
  }

  lemma BeginsOneMore(original: seq<char>, before: seq<char>, now: seq<char>, p: nat, end: nat, sofar: string, text: string)
    requires Begins(original, before, p, end, sofar) && p < end && Wrote(before, now, p, end, text)
    ensures Begins(original, now, if p + |text| < end then p + |text| else end, end, sofar + text)
  {
    WroteBoth(original, before, now, 0, end, sofar, text);
  }

  /** Beyond the end, nothing more is written. */
  lemma BeginsAll(original: seq<char>, now: seq<char>, p: nat, end: nat, sofar: string, rest: string)
    requires Begins(original, now, p, end, sofar) && (p < end ==> rest == "")
    ensures Begins(original, now, p, end, sofar + rest)
  {
    if p < end {
      assert sofar + rest == sofar;
    }
  }

  /** One directive with its argument; p is not yet cut off at the end. */
  method WriteDirective(buffer: array<char>, p: nat, end: nat, fmt: string, args: seq<Arg>) returns (q: nat)
    requires |fmt| >= 2 && fmt[0] == '%' && Fits(fmt, args) && p < end < buffer.Length
    modifies buffer
    ensures Wrote(old(buffer[..]), buffer[..], p, end, First(fmt, args).text)
    ensures if p + |First(fmt, args).text| <= end then q == p + |First(fmt, args).text| else q >= end
  {
    ghost var before := buffer[..];
    match fmt[1] {
      case '%' => q := Put(buffer, p, end, '%');
      case 's' => q := WriteString(buffer, p, end, args[0].s);
      case 'c' => q := Put(buffer, p, end, AsChar(args[0].c));
      case 'd' =>
        var val := args[0].i;
        q := p;
        if val < 0 {
          q := Put(buffer, p, end, '-');
          val := -val;
          ghost var middle := buffer[..];
          q := WriteUnsigned(buffer, q, end, val, 10);
          WroteBoth(before, middle, buffer[..], p, end, "-", Unsigned32(val, 10));
        } else {
          q := WriteUnsigned(buffer, p, end, val, 10);
        }
      case 'u' => q := WriteUnsigned(buffer, p, end, args[0].u, 10);
      case 'x' => q := WriteUnsigned(buffer, p, end, args[0].u, 16);
      case 'p' => q := WritePointer(buffer, p, end, args[0].v);
      case other =>
        q := Put(buffer, p, end, '%');
        ghost var middle := buffer[..];
        WrotePair(p, end, q, other);
        q := Put(buffer, q, end, other);
        UnknownPair(before, middle, buffer[..], p, end, other);
    }
  }

  lemma WrotePair(p: nat, end: nat, q: nat, c: char)
    requires p < end && q == p + 1
    ensures q <= end
  {
  }

  lemma UnknownPair(a: seq<char>, b: seq<char>, c: seq<char>, p: nat, end: nat, x: char)
    requires p < end && Wrote(a, b, p, end, ['%']) && Wrote(b, c, p + 1, end, [x])
    ensures Wrote(a, c, p, end, ['%', x])
  {
    WroteBoth(a, b, c, p, end, ['%'], [x]);
    assert ['%'] + [x] == ['%', x];
  }

  /** vfmt_str: the first size - 1 characters of the unbounded result, terminated; the
      rest of the buffer is left alone. */
  method VfmtStr(buffer: array<char>, size: nat, fmt: string, args: seq<Arg>) returns (n: nat)
    requires 1 <= size <= buffer.Length && Conforms(fmt, args)
    modifies buffer
    ensures var whole := Formatted(fmt, args);
            && n == (if |whole| < size - 1 then |whole| else size - 1)
            && (n == |whole| <==> |whole| < size)
            && buffer[..n] == whole[..n] && buffer[n] == '\0'
    ensures forall j :: n < j < buffer.Length ==> buffer[j] == old(buffer[j])
  {
    hide First, Fits, Begins, Formatted, Conforms, Wrote, TakesArgument;
    var p: nat, end: nat, f: nat, a: nat := 0, size - 1, 0, 0;
    ghost var original, whole := buffer[..], Formatted(fmt, args);
    ghost var sofar := "";
    Starts(original, end);
    assert fmt[0..] == fmt && args[0..] == args && "" + whole == whole;
    while f < |fmt| && p < end
      invariant f <= |fmt| && a <= |args| && p <= end
      invariant Conforms(fmt[f..], args[a..]) && whole == sofar + Formatted(fmt[f..], args[a..])
      invariant Begins(original, buffer[..], p, end, sofar)
      decreases |fmt| - f
    {
      ghost var before := buffer[..];
      PieceIs(fmt[f..], args[a..]);
      ghost var piece := First(fmt[f..], args[a..]);
      assert fmt[f..][piece.length..] == fmt[f + piece.length..] && args[a..][piece.taken..] == args[a + piece.taken..];
      Regroup(whole, sofar, piece.text, Formatted(fmt[f + piece.length..], args[a + piece.taken..]));
      BeginsOneMoreAlways(original, before, p, end, sofar, piece.text);
      if fmt[f] != '%' {
        p := Put(buffer, p, end, fmt[f]);
        f := f + 1;
      } else if f + 1 == |fmt| {
        // A single '%' at the end stands for itself.
        p := Put(buffer, p, end, '%');
        f := f + 1;
      } else {
        p := WriteDirective(buffer, p, end, fmt[f..], args[a..]);
        if TakesArgument(fmt[f + 1]) {
          a := a + 1;
        }
        f := f + 2;
      }
      if p >= end {
        p := end;
      }
      sofar := sofar + piece.text;
    }
    NothingLeft(fmt[f..], args[a..]);
    BeginsAll(original, buffer[..], p, end, sofar, Formatted(fmt[f..], args[a..]));
    Ends(original, buffer[..], p, end, whole);
    buffer[p] := '\0';
    return p;
  }

  lemma NothingLeft(fmt: string, args: seq<Arg>)
    requires Conforms(fmt, args)
    ensures fmt == "" ==> Formatted(fmt, args) == ""
  {
  }

  lemma Regroup(whole: string, a: string, b: string, c: string)
    requires whole == a + (b + c)
    ensures whole == a + b + c
  {
  }

  lemma Starts(original: seq<char>, end: nat)
    ensures Begins(original, original, 0, end, "")
  {
  }

  lemma Ends(original: seq<char>, now: seq<char>, p: nat, end: nat, whole: string)
    requires Begins(original, now, p, end, whole) && end < |original|
    ensures p == (if |whole| < end then |whole| else end) && |now| == |original| && now[..p] == whole[..p]
    ensures forall j :: p <= j < |now| ==> now[j] == original[j]
  {
  }

  lemma BeginsOneMoreAlways(original: seq<char>, before: seq<char>, p: nat, end: nat, sofar: string, text: string)
    requires Begins(original, before, p, end, sofar) && p < end
    ensures forall now | Wrote(before, now, p, end, text) ::
              Begins(original, now, if p + |text| < end then p + |text| else end, end, sofar + text)
  {
    forall now | Wrote(before, now, p, end, text)
      ensures Begins(original, now, if p + |text| < end then p + |text| else end, end, sofar + text)
    {
      BeginsOneMore(original, before, now, p, end, sofar, text);
    }
  }

  /** The length of the next piece and the arguments it takes, as the loop counts them. */
  lemma PieceIs(fmt: string, args: seq<Arg>)
    requires fmt != [] && Conforms(fmt, args)
    ensures Fits(fmt, args) && Conforms(fmt[First(fmt, args).length..], args[First(fmt, args).taken..])
    ensures fmt[0] != '%' ==> First(fmt, args) == Piece([fmt[0]], 1, 0)
    ensures fmt[0] == '%' && |fmt| == 1 ==> First(fmt, args) == Piece("%", 1, 0)
    ensures fmt[0] == '%' && |fmt| > 1 ==>
              First(fmt, args).length == 2 && First(fmt, args).taken == if TakesArgument(fmt[1]) then 1 else 0
    ensures Formatted(fmt, args) == First(fmt, args).text + Formatted(fmt[First(fmt, args).length..], args[First(fmt, args).taken..])
  {
  }
}
