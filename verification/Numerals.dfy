/** Printing and reading numbers, as the wire format and the block hashes use them. */
module Numerals {
  import opened Prelude

  const U64: nat := 0x1_0000_0000_0000_0000
  const I32: nat := 0x8000_0000

  predicate Base(b: nat) { b == 10 || b == 16 }

  function Digit(d: nat): char
    requires d < 16
  {
    "0123456789abcdef"[d]
  }

  /** The value of a digit of either case; 16 when the character is none. */
  function DigitValue(c: char): nat {
    if '0' <= c <= '9' then (c - '0') as nat
    else if 'a' <= c <= 'f' then (c - 'a') as nat + 10
    else if 'A' <= c <= 'F' then (c - 'A') as nat + 10
    else 16
  }

  predicate IsDigit(c: char, base: nat) { DigitValue(c) < base }

  /** Lower-case hexadecimal text, as the hash function prints it. */
  predicate LowerHex(s: string) {
    forall i :: 0 <= i < |s| ==> '0' <= s[i] <= '9' || 'a' <= s[i] <= 'f'
  }

  lemma DigitInverse(d: nat)
    requires d < 16
    ensures DigitValue(Digit(d)) == d && LowerHex([Digit(d)])
  {
    assert d == 0 || d == 1 || d == 2 || d == 3 || d == 4 || d == 5 || d == 6 || d == 7 || d == 8 || d == 9
        || d == 10 || d == 11 || d == 12 || d == 13 || d == 14 || d == 15;
  }

  lemma DigitOfValue(c: char)
    requires LowerHex([c])
    ensures DigitValue(c) < 16 && Digit(DigitValue(c)) == c
  {
    assert [c][0] == c;
    var d := DigitValue(c);
    DigitInverse(d);
  }

  function Print(n: nat, base: nat): (s: string)
    requires Base(base)
    ensures |s| > 0
  {
    if n < base then [Digit(n)] else Print(n / base, base) + [Digit(n % base)]
  }

  function Value(s: string, base: nat): nat {
    if s == [] then 0 else Value(s[..|s| - 1], base) * base + DigitValue(s[|s| - 1])
  }

  predicate AllDigits(s: string, base: nat) {
    forall i :: 0 <= i < |s| ==> IsDigit(s[i], base)
  }

  lemma {:induction false} PrintValue(n: nat, base: nat)
    requires Base(base)
    ensures AllDigits(Print(n, base), base) && Value(Print(n, base), base) == n
  {
    if n < base {
      DigitInverse(n);
      assert Value([Digit(n)], base) == Value([], base) * base + DigitValue(Digit(n));
    } else {
      var s := Print(n / base, base);
      PrintValue(n / base, base);
      DigitInverse(n % base);
      assert (s + [Digit(n % base)])[..|s|] == s;
    }
  }

  // ---------- reading ----------

  predicate IsSpace(c: char) {
    c == ' ' || c == '\t' || c == '\n' || c == '\r' || c as int == 11 || c as int == 12
  }

  function SkipSpaces(s: string): string {
    if s != [] && IsSpace(s[0]) then SkipSpaces(s[1..]) else s
  }

  /** The longest run of digits at the start. */
  function TakeDigits(s: string, base: nat): string {
    if s != [] && IsDigit(s[0], base) then [s[0]] + TakeDigits(s[1..], base) else []
  }

  predicate Negative(s: string) { s != [] && s[0] == '-' }

  function Unsigned(s: string): string {
    if s != [] && (s[0] == '-' || s[0] == '+') then s[1..] else s
  }

  /** The digits a numeric conversion reads; what follows them is ignored. */
  function Numeral(s: string, base: nat): string {
    TakeDigits(Unsigned(SkipSpaces(s)), base)
  }

  /** std::stoull: fails without digits or above 64 bits; a minus sign wraps around. */
  function Stoull(s: string, base: nat): (r: Option<nat>)
    ensures r.Some? ==> r.value < U64
  {
    var d := Numeral(s, base);
    if d == [] || Value(d, base) >= U64 then None
    else if Negative(SkipSpaces(s)) && Value(d, base) > 0 then Some(U64 - Value(d, base))
    else Some(Value(d, base))
  }

  /** std::stoi stored in a 32-bit unsigned field: fails without digits or outside the int range. */
  function Stoi(s: string, base: nat): (r: Option<nat>)
    ensures r.Some? ==> r.value < U32
  {
    var d := Numeral(s, base);
    var v := Value(d, base);
    if d == [] then None
    else if Negative(SkipSpaces(s)) then (if v > I32 then None else if v == 0 then Some(0) else Some(U32 - v))
    else if v >= I32 then None else Some(v)
  }

  lemma {:induction false} TakeAllDigits(s: string, base: nat)
    requires AllDigits(s, base)
    ensures TakeDigits(s, base) == s
    decreases |s|
  {
    if s != [] {
      assert IsDigit(s[0], base);
      assert forall i :: 0 <= i < |s| - 1 ==> s[1..][i] == s[i + 1];
      TakeAllDigits(s[1..], base);
    }
  }

  /** Digits alone are read as the number they denote. */
  lemma NumeralOfDigits(s: string, base: nat)
    requires Base(base) && AllDigits(s, base) && s != []
    ensures Numeral(s, base) == s && !Negative(SkipSpaces(s))
  {
    assert IsDigit(s[0], base);
    TakeAllDigits(s, base);
  }

  /** Reading a printed number returns it when it fits 64 bits, and fails otherwise. */
  lemma StoullOfPrint(n: nat, base: nat)
    requires Base(base)
    ensures Stoull(Print(n, base), base) == if n < U64 then Some(n) else None
  {
    PrintValue(n, base);
    NumeralOfDigits(Print(n, base), base);
  }

  /** The same for the 31 bits of std::stoi. */
  lemma StoiOfPrint(n: nat, base: nat)
    requires Base(base)
    ensures Stoi(Print(n, base), base) == if n < I32 then Some(n) else None
  {
    PrintValue(n, base);
    NumeralOfDigits(Print(n, base), base);
  }

  lemma {:induction false} SpacesSkipped(ws: string, s: string)
    requires (forall i :: 0 <= i < |ws| ==> IsSpace(ws[i])) && (s == [] || !IsSpace(s[0]))
    ensures SkipSpaces(ws + s) == s
    decreases |ws|
  {
    if ws == [] {
      assert ws + s == s;
    } else {
      assert (ws + s)[1..] == ws[1..] + s;
      SpacesSkipped(ws[1..], s);
    }
  }

  lemma {:induction false} DigitsTaken(s: string, junk: string, base: nat)
    requires AllDigits(s, base) && (junk == [] || !IsDigit(junk[0], base))
    ensures TakeDigits(s + junk, base) == s
    decreases |s|
  {
    if s == [] {
      assert s + junk == junk;
    } else {
      assert (s + junk)[1..] == s[1..] + junk;
      assert forall i :: 0 <= i < |s| - 1 ==> s[1..][i] == s[i + 1];
      DigitsTaken(s[1..], junk, base);
    }
  }

  /** White space in front, one sign, digits, and whatever follows. */
  lemma NumeralInText(ws: string, sign: string, s: string, junk: string, base: nat)
    requires Base(base) && (forall i :: 0 <= i < |ws| ==> IsSpace(ws[i])) && (sign == "" || sign == "+" || sign == "-")
    requires s != [] && AllDigits(s, base) && (junk == [] || !IsDigit(junk[0], base))
    ensures var t := ws + (sign + (s + junk)); Numeral(t, base) == s && (Negative(SkipSpaces(t)) <==> sign == "-")
  {
    var u := sign + (s + junk);
    assert IsDigit(s[0], base) && (sign == "" ==> u == s + junk);
    assert u[0] == if sign == "" then s[0] else sign[0];
    SpacesSkipped(ws, u);
    assert Unsigned(u) == s + junk;
    DigitsTaken(s, junk, base);
  }

  /**
   * Reading a printed number out of a longer text.  White space in front and text behind do not matter; a minus
   * sign wraps around in 32 bits.
   */
  lemma StoiInText(ws: string, sign: string, n: nat, junk: string, base: nat)
    requires Base(base) && (forall i :: 0 <= i < |ws| ==> IsSpace(ws[i])) && (sign == "" || sign == "+" || sign == "-")
    requires junk == [] || !IsDigit(junk[0], base)
    ensures Stoi(ws + (sign + (Print(n, base) + junk)), base) ==
      if sign == "-" then (if n > 0x8000_0000 then None else if n == 0 then Some(0) else Some(0x1_0000_0000 - n))
      else if n < 0x8000_0000 then Some(n) else None
  {
    hide Numeral, Negative, SkipSpaces, Print, Value, AllDigits, IsSpace;
    PrintValue(n, base);
    NumeralInText(ws, sign, Print(n, base), junk, base);
  }

  /** The same for 64 bits. */
  lemma StoullInText(ws: string, sign: string, n: nat, junk: string, base: nat)
    requires Base(base) && (forall i :: 0 <= i < |ws| ==> IsSpace(ws[i])) && (sign == "" || sign == "+" || sign == "-")
    requires junk == [] || !IsDigit(junk[0], base)
    ensures Stoull(ws + (sign + (Print(n, base) + junk)), base) ==
      if n >= 0x1_0000_0000_0000_0000 then None
      else if sign == "-" && n > 0 then Some(0x1_0000_0000_0000_0000 - n) else Some(n)
  {
    hide Numeral, Negative, SkipSpaces, Print, Value, AllDigits, IsSpace;
    PrintValue(n, base);
    NumeralInText(ws, sign, Print(n, base), junk, base);
  }

  // ---------- block hashes ----------

  function Zeros(n: nat): (s: string)
    ensures |s| == n
  {
    if n == 0 then [] else ['0'] + Zeros(n - 1)
  }

  /** The hexadecimal text of a block hash, padded to 16 characters. */
  function BlockhashToString(b: nat): string {
    var h := Print(b, 16);
    if |h| < 16 then Zeros(16 - |h|) + h else h
  }

  /** The block hash named by the first 16 characters of a hash text. */
  function StringToBlockhash(h: string): Option<nat>
    requires |h| >= 16
  {
    Stoull(h[..16], 16)
  }

  function Pow16(w: nat): (p: nat)
    ensures p >= 1
  {
    if w == 0 then 1 else 16 * Pow16(w - 1)
  }

  /** The last w hexadecimal digits of n. */
  function Fixed(n: nat, w: nat): (s: string)
    ensures |s| == w
  {
    if w == 0 then [] else Fixed(n / 16, w - 1) + [Digit(n % 16)]
  }

  lemma {:induction false} FixedZero(w: nat)
    ensures Fixed(0, w) == Zeros(w)
  {
    if w > 0 {
      FixedZero(w - 1);
      ZerosEnd(w - 1);
    }
  }

  lemma {:induction false} ZerosEnd(n: nat)
    ensures Zeros(n) + ['0'] == ['0'] + Zeros(n)
  {
    if n > 0 {
      ZerosEnd(n - 1);
      assert Zeros(n) + ['0'] == ['0'] + (Zeros(n - 1) + ['0']);
    }
  }

  lemma {:induction false} PrintIsFixed(n: nat, w: nat)
    requires n < Pow16(w) && w > 0
    ensures |Print(n, 16)| <= w && Fixed(n, w) == Zeros(w - |Print(n, 16)|) + Print(n, 16)
    decreases w
  {
    hide Print, Fixed, Zeros, Pow16;
    FixedUnfolds(n, w);
    if n < 16 {
      FixedZero(w - 1);
    } else {
      PrintIsFixed(n / 16, w - 1);
      var p := Print(n / 16, 16);
      assert Zeros(w - 1 - |p|) + (p + [Digit(n % 16)]) == (Zeros(w - 1 - |p|) + p) + [Digit(n % 16)];
    }
  }

  /** One digit less on both sides. */
  lemma FixedUnfolds(n: nat, w: nat)
    requires n < Pow16(w) && w > 0
    ensures Fixed(n, w) == Fixed(n / 16, w - 1) + [Digit(n % 16)] && n / 16 < Pow16(w - 1)
    ensures if n < 16 then n / 16 == 0 && Print(n, 16) == [Digit(n % 16)] else w > 1 && Print(n, 16) == Print(n / 16, 16) + [Digit(n % 16)]
  {
    if w == 1 { assert Pow16(1) == 16 * Pow16(0); }
  }

  lemma {:induction false} FixedIsLowerHex(n: nat, w: nat)
    ensures LowerHex(Fixed(n, w))
    decreases w
  {
    if w > 0 {
      FixedIsLowerHex(n / 16, w - 1);
      DigitInverse(n % 16);
      assert [Digit(n % 16)][0] == Digit(n % 16);
    }
  }

  lemma {:induction false} ValueOfFixed(n: nat, w: nat)
    requires n < Pow16(w)
    ensures Value(Fixed(n, w), 16) == n
    decreases w
  {
    if w > 0 {
      ValueOfFixed(n / 16, w - 1);
      DigitInverse(n % 16);
      assert (Fixed(n / 16, w - 1) + [Digit(n % 16)])[..w - 1] == Fixed(n / 16, w - 1);
    }
  }

  lemma FixedStep(v: nat, c: char, w: nat)
    requires LowerHex([c]) && v < Pow16(w)
    ensures v * 16 + DigitValue(c) < Pow16(w + 1) && Fixed(v * 16 + DigitValue(c), w + 1) == Fixed(v, w) + [c]
  {
    DigitOfValue(c);
    var n := v * 16 + DigitValue(c);
    assert n / 16 == v && n % 16 == DigitValue(c);
  }

  lemma {:induction false} FixedOfValue(s: string)
    requires LowerHex(s)
    ensures Value(s, 16) < Pow16(|s|) && Fixed(Value(s, 16), |s|) == s
    decreases |s|
  {
    hide *;
    if s == [] {
      FixedOfNone();
    } else {
      var t, c := s[..|s| - 1], s[|s| - 1];
      ValueStep(s);
      FixedOfValue(t);
      FixedStep(Value(t, 16), c, |t|);
      assert s == t + [c];
    }
  }

  lemma FixedOfNone()
    ensures Value([], 16) == 0 < Pow16(0) && Fixed(0, 0) == []
  {
  }

  lemma ValueStep(s: string)
    requires LowerHex(s) && s != []
    ensures var t, c := s[..|s| - 1], s[|s| - 1]; LowerHex(t) && LowerHex([c]) && Value(s, 16) == Value(t, 16) * 16 + DigitValue(c)
  {
    hide DigitValue;
    assert [s[|s| - 1]][0] == s[|s| - 1];
  }

  lemma Pow16Is64Bits()
    ensures Pow16(16) == U64
  {
    assert Pow16(4) == 0x1_0000;
    assert Pow16(8) == 0x1_0000_0000;
    assert Pow16(12) == 0x1_0000_0000_0000;
  }

  lemma BlockhashIsFixed(b: nat)
    requires b < U64
    ensures BlockhashToString(b) == Fixed(b, 16)
  {
    hide Fixed, Print, Pow16;
    Pow16Is64Bits();
    PrintIsFixed(b, 16);
    assert Zeros(0) + Print(b, 16) == Print(b, 16);
  }

  /** Hexadecimal text is read as its value. */
  lemma StoullOfHex(h: string)
    requires LowerHex(h) && h != []
    ensures Stoull(h, 16) == if Value(h, 16) < U64 then Some(Value(h, 16)) else None
  {
    NumeralOfDigits(h, 16);
  }

  /** A printed block hash has 16 hexadecimal digits and is read back as itself. */
  lemma BlockhashRoundTrip(b: nat)
    requires b < U64
    ensures |BlockhashToString(b)| == 16 && LowerHex(BlockhashToString(b))
    ensures StringToBlockhash(BlockhashToString(b)) == Some(b)
  {
    Pow16Is64Bits();
    BlockhashIsFixed(b);
    FixedIsLowerHex(b, 16);
    ValueOfFixed(b, 16);
    var h := BlockhashToString(b);
    assert h[..16] == h;
    StoullOfHex(h);
  }

  /** The first 16 digits of a hash text name exactly one block hash, whose text they are. */
  lemma BlockhashOfText(h: string)
    requires |h| >= 16 && LowerHex(h)
    ensures StringToBlockhash(h).Some? && StringToBlockhash(h).value < U64
    ensures BlockhashToString(StringToBlockhash(h).value) == h[..16]
  {
    var t := h[..16];
    assert LowerHex(t);
    Pow16Is64Bits();
    FixedOfValue(t);
    StoullOfHex(t);
    BlockhashIsFixed(Value(t, 16));
  }
}
