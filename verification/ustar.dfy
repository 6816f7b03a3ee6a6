/**
 lib/ustar.c: headers of tar archives in the ustar interchange format, with the
 octal conversion of lib/stdio.c they are printed by.

 A char is a number below 256; a C string is the sequence of its chars without the
 terminating null.
 */
module Ustar {
  import opened Common

  const HEADER_SIZE: nat := 512
  const REGULAR: byte := 48
  const DIRECTORY: byte := 53
  const DOT: byte := 46
  const SLASH: byte := 47
  const ZERO: byte := 48

  const INT_MAX: nat := 0x7fff_ffff

  // ---------------------------------------------------------------------
  // Octal numbers
  // ---------------------------------------------------------------------

  /** The octal digits of v, most significant first; none for 0. */
  function Digits(v: nat): (s: seq<byte>) {
    if v == 0 then [] else Digits(v / 8) + [ZERO + v % 8]
  }

  function Zeros(n: nat): (s: seq<byte>)
    ensures |s| == n && forall i :: 0 <= i < n ==> s[i] == ZERO
  {
    seq(n, _ => ZERO)
  }

  /** The digits printed for v. */
  function Numeral(v: nat): seq<byte> {
    if v == 0 then [ZERO] else Digits(v)
  }

  /** v in octal, with leading zeros up to the width and at least one digit. */
  function Octal(v: nat, width: nat): (s: seq<byte>) {
    var d := Numeral(v);
    Zeros(if |d| < width then width - |d| else 0) + d
  }

  lemma ReversedAppend(buf: seq<byte>, c: byte)
    ensures Reversed(buf + [c]) == [c] + Reversed(buf)
  {
  }

  /** The digits format_integer() accumulates, least significant first, at least one. */
  method DigitBuffer(value: nat) returns (buf: seq<byte>)
    ensures Reversed(buf) == Numeral(value)
  {
    buf := [];
    var v := value;
    while v > 0
      invariant Digits(value) == Digits(v) + Reversed(buf)
    {
      ReversedAppend(buf, ZERO + v % 8);
      assert Digits(v) + Reversed(buf) == Digits(v / 8) + Reversed(buf + [ZERO + v % 8]);
      buf := buf + [ZERO + v % 8];
      v := v / 8;
    }
    while |buf| < 1
      invariant |buf| == 0 ==> value == 0
      invariant |buf| > 0 ==> Reversed(buf) == Numeral(value)
      decreases 1 - |buf|
    {
      buf := buf + [ZERO];
    }
  }

  /** output_dup() of '0' */
  method OutputZeros(cnt: int) returns (out: seq<byte>)
    ensures out == Zeros(if cnt > 0 then cnt else 0)
  {
    out := [];
    var left := cnt;
    while left > 0
      invariant |out| == (if cnt > 0 then cnt - left else 0) && out == Zeros(|out|)
      invariant cnt > 0 ==> left >= 0
    {
      out := out + [ZERO];
      left := left - 1;
    }
  }

  /** format_integer() for the conversion %0No, with N the width. */
  method FormatOctal(value: nat, width: nat) returns (out: seq<byte>)
    ensures out == Octal(value, width)
  {
    var buf := DigitBuffer(value);
    var pad := OutputZeros(width - |buf|);
    out := pad;
    var cp := |buf|;
    while cp > 0
      invariant 0 <= cp <= |buf| && out == pad + Reversed(buf)[..|buf| - cp]
    {
      cp := cp - 1;
      out := out + [buf[cp]];
    }
    assert Reversed(buf)[..|buf|] == Reversed(buf);
  }

  // ---------------------------------------------------------------------
  // Parsing octal fields
  // ---------------------------------------------------------------------

  predicate IsDigit(c: byte) {
    ZERO <= c <= ZERO + 7
  }

  /** parse_octal_field() from offset ofs on, with the value so far. */
  function ParseFrom(s: seq<byte>, ofs: nat, value: nat): Option<nat>
    requires ofs <= |s|
    decreases |s| - ofs
  {
    if ofs == |s| then None
    else if IsDigit(s[ofs]) then
      if value > (WORD - 1) / 8 then None else ParseFrom(s, ofs + 1, s[ofs] - ZERO + value * 8)
    else if s[ofs] == 32 || s[ofs] == 0 then
      if ofs > 0 then Some(value) else None
    else None
  }

  function ParseOctal(s: seq<byte>): Option<nat> {
    ParseFrom(s, 0, 0)
  }

  /** Parsing never yields a value that does not fit an unsigned long. */
  lemma {:induction false} ParseFits(s: seq<byte>, ofs: nat, value: nat)
    requires ofs <= |s| && value < WORD
    ensures ParseFrom(s, ofs, value).Some? ==> ParseFrom(s, ofs, value).value < WORD
    decreases |s| - ofs
  {
    if ofs < |s| && IsDigit(s[ofs]) && value <= (WORD - 1) / 8 {
      ParseFits(s, ofs + 1, s[ofs] - ZERO + value * 8);
    }
  }

  /** parse_octal_field() */
  method ParseField(h: array<byte>, at: nat, size: nat) returns (ok: bool, value: nat)
    requires at + size <= h.Length
    ensures ParseOctal(h[at..at + size]) == if ok then Some(value) else None
    ensures ok ==> value < WORD
  {
    value := 0;
    var ofs := 0;
    ghost var s := h[at..at + size];
    ParseFits(s, 0, 0);
    while ofs < size
      invariant 0 <= ofs <= size && ParseOctal(s) == ParseFrom(s, ofs, value)
    {
      var c := h[at + ofs];
      assert c == s[ofs];
      if IsDigit(c) {
        if value > (WORD - 1) / 8 {
          return false, value;
        }
        value := c - ZERO + value * 8;
      } else if c == 32 || c == 0 {
        return ofs > 0, value;
      } else {
        return false, value;
      }
      ofs := ofs + 1;
    }
    return false, value;
  }

  /** s continues with the field t at ofs. */
  ghost predicate At(s: seq<byte>, ofs: nat, t: seq<byte>) {
    ofs + |t| <= |s| && s[ofs..ofs + |t|] == t
  }

  lemma {:induction false} ParseZeros(s: seq<byte>, ofs: nat, n: nat)
    requires ofs + n <= |s| && forall i :: ofs <= i < ofs + n ==> s[i] == ZERO
    ensures ParseFrom(s, ofs, 0) == ParseFrom(s, ofs + n, 0)
    decreases n
  {
    if n > 0 {
      ParseZeros(s, ofs + 1, n - 1);
    }
  }

  lemma AtParts(s: seq<byte>, ofs: nat, t: seq<byte>, u: seq<byte>)
    requires At(s, ofs, t + u)
    ensures At(s, ofs, t) && At(s, ofs + |t|, u)
  {
    var w := s[ofs..ofs + |t + u|];
    assert w[..|t|] == t && w[|t|..] == u;
    assert s[ofs..ofs + |t|] == w[..|t|];
    assert s[ofs + |t|..ofs + |t| + |u|] == w[|t|..];
  }

  lemma AtLast(s: seq<byte>, ofs: nat, t: seq<byte>, c: byte)
    requires At(s, ofs, t + [c])
    ensures At(s, ofs, t) && ofs + |t| < |s| && s[ofs + |t|] == c
  {
    AtParts(s, ofs, t, [c]);
    assert s[ofs + |t|..ofs + |t| + 1][0] == c;
  }

  lemma DigitsStep(v: nat)
    requires v > 0
    ensures Digits(v) == Digits(v / 8) + [ZERO + v % 8]
  {
  }

  lemma DigitsAt(s: seq<byte>, ofs: nat, v: nat)
    requires v > 0 && At(s, ofs, Digits(v))
    ensures var last := ofs + |Digits(v / 8)|;
            At(s, ofs, Digits(v / 8)) && last + 1 == ofs + |Digits(v)| <= |s| && s[last] == ZERO + v % 8
  {
    hide At, Digits;
    DigitsStep(v);
    AtLast(s, ofs, Digits(v / 8), ZERO + v % 8);
  }

  /** One more digit. */
  lemma ParseStep(s: seq<byte>, last: nat, v: nat)
    requires v < WORD && last < |s| && s[last] == ZERO + v % 8
    ensures ParseFrom(s, last, v / 8) == ParseFrom(s, last + 1, v)
  {
    assert v % 8 + v / 8 * 8 == v;
  }

  /** Reading the digits of v gives v, if it fits. */
  lemma {:induction false} ParseDigits(s: seq<byte>, ofs: nat, v: nat)
    requires v < WORD && At(s, ofs, Digits(v))
    ensures ParseFrom(s, ofs, 0) == ParseFrom(s, ofs + |Digits(v)|, v)
  {
    if v > 0 {
      var last := ofs + |Digits(v / 8)|;
      DigitsAt(s, ofs, v);
      ParseDigits(s, ofs, v / 8);
      ParseStep(s, last, v);
    }
  }

  lemma ParseZerosAt(s: seq<byte>, ofs: nat, n: nat)
    requires At(s, ofs, Zeros(n))
    ensures ParseFrom(s, ofs, 0) == ParseFrom(s, ofs + n, 0)
  {
    forall i | ofs <= i < ofs + n ensures s[i] == ZERO {
      assert s[i] == s[ofs..ofs + n][i - ofs];
    }
    ParseZeros(s, ofs, n);
  }

  lemma ParseNumeral(s: seq<byte>, n: nat, v: nat)
    requires v < WORD && At(s, 0, Zeros(n)) && At(s, n, Numeral(v))
    ensures ParseOctal(s) == ParseFrom(s, n + |Numeral(v)|, v)
  {
    ParseZerosAt(s, 0, n);
    if v == 0 {
      assert Numeral(v) == Zeros(1);
      ParseZerosAt(s, n, 1);
    } else {
      ParseDigits(s, n, v);
    }
  }

  /** parse_octal_field() undoes "%0No", for a field closed by a null. */
  lemma OctalRoundTrip(v: nat, width: nat, s: seq<byte>)
    requires v < WORD && |Octal(v, width)| < |s| && At(s, 0, Octal(v, width)) && s[|Octal(v, width)|] == 0
    ensures ParseOctal(s) == Some(v)
  {
    var d := Numeral(v);
    var n := if |d| < width then width - |d| else 0;
    AtParts(s, 0, Zeros(n), d);
    ParseNumeral(s, n, v);
  }

  ghost function Pow8(k: nat): nat {
    if k == 0 then 1 else 8 * Pow8(k - 1)
  }

  lemma {:induction false} DigitCount(v: nat, k: nat)
    requires v < Pow8(k)
    ensures |Digits(v)| <= k
  {
    if v > 0 {
      DigitCount(v / 8, k - 1);
    }
  }

  /** How long a padded number is. */
  lemma OctalLength(v: nat, width: nat)
    requires width > 0 && v < Pow8(width)
    ensures |Octal(v, width)| == width
    ensures forall i :: 0 <= i < width ==> IsDigit(Octal(v, width)[i])
  {
    DigitCount(v, width);
    DigitsAreDigits(v);
  }

  lemma {:induction false} DigitsAreDigits(v: nat)
    ensures forall i :: 0 <= i < |Digits(v)| ==> IsDigit(Digits(v)[i])
  {
    if v > 0 {
      DigitsAreDigits(v / 8);
    }
  }

  // ---------------------------------------------------------------------
  // File names
  // ---------------------------------------------------------------------

  predicate StartsWith(s: seq<byte>, t: seq<byte>) {
    |t| <= |s| && s[..|t|] == t
  }

  /** The prefixes that are stripped: "/", "./" and "../". */
  predicate Antisocial(s: seq<byte>) {
    StartsWith(s, [SLASH]) || StartsWith(s, [DOT, SLASH]) || StartsWith(s, [DOT, DOT, SLASH])
  }

  /** strchr (s, '/') + 1, for an s that holds a slash. */
  function AfterSlash(s: seq<byte>): (r: seq<byte>)
    requires SLASH in s
    ensures |r| < |s|
  {
    if s[0] == SLASH then s[1..] else AfterSlash(s[1..])
  }

  lemma AntisocialHasSlash(s: seq<byte>)
    requires Antisocial(s)
    ensures SLASH in s
  {
    assert StartsWith(s, [SLASH]) ==> s[0] == SLASH;
    assert StartsWith(s, [DOT, SLASH]) ==> s[1] == SLASH by {
      if StartsWith(s, [DOT, SLASH]) { assert s[..2][1] == SLASH; }
    }
    assert StartsWith(s, [DOT, DOT, SLASH]) ==> s[2] == SLASH by {
      if StartsWith(s, [DOT, DOT, SLASH]) { assert s[..3][2] == SLASH; }
    }
  }

  function Stripped(s: seq<byte>): (r: seq<byte>)
    ensures !Antisocial(r)
    decreases |s|
  {
    if Antisocial(s) then AntisocialHasSlash(s); Stripped(AfterSlash(s)) else s
  }

  /** strip_antisocial_prefixes() */
  function Strip(s: seq<byte>): (r: seq<byte>) {
    var t := Stripped(s);
    if t == [] || t == [DOT, DOT] then [DOT] else t
  }

  /** strip_antisocial_prefixes() */
  method StripPrefixes(name: seq<byte>) returns (r: seq<byte>)
    ensures r == Strip(name)
  {
    r := name;
    while Antisocial(r)
      invariant Stripped(r) == Stripped(name)
      decreases |r|
    {
      AntisocialHasSlash(r);
      r := AfterSlash(r);
    }
    if r == [] || r == [DOT, DOT] {
      r := [DOT];
    }
  }

  /** A name that stays below the directory it is extracted in, as far as its start
      tells. */
  predicate Safe(s: seq<byte>) {
    s != [] && s != [DOT, DOT] && !Antisocial(s)
  }

  /** The stripped name is safe, and stripping leaves exactly the safe names alone; so
      it can be done twice, as it is when an archive is written and read. */
  lemma StripSafe(s: seq<byte>)
    ensures Safe(Strip(s)) && Strip(Strip(s)) == Strip(s)
    ensures Strip(s) == s <==> Safe(s)
  {
    assert [DOT][..1][0] == DOT;
    assert Safe([DOT]);
    StrippedSuffix(s);
  }

  lemma {:induction false} StrippedSuffix(s: seq<byte>)
    ensures |Stripped(s)| <= |s| && (forall c :: c in Stripped(s) ==> c in s)
    decreases |s|
  {
    if Antisocial(s) {
      AntisocialHasSlash(s);
      AfterSlashIn(s);
      StrippedSuffix(AfterSlash(s));
    }
  }

  lemma {:induction false} AfterSlashIn(s: seq<byte>)
    requires SLASH in s
    ensures forall c :: c in AfterSlash(s) ==> c in s
  {
    if s[0] != SLASH {
      AfterSlashIn(s[1..]);
    }
  }

  /** One of the prefixes. */
  predicate IsUnit(u: seq<byte>) {
    u == [SLASH] || u == [DOT, SLASH] || u == [DOT, DOT, SLASH]
  }

  ghost function Joined(us: seq<seq<byte>>): seq<byte> {
    if us == [] then [] else us[0] + Joined(us[1..])
  }

  lemma {:induction false} AfterSlashAt(s: seq<byte>, k: nat)
    requires k < |s| && s[k] == SLASH && forall i :: 0 <= i < k ==> s[i] != SLASH
    ensures SLASH in s && AfterSlash(s) == s[k + 1..]
  {
    if k > 0 {
      AfterSlashAt(s[1..], k - 1);
    }
  }

  lemma DropsUnit(u: seq<byte>, s: seq<byte>)
    requires IsUnit(u)
    ensures Antisocial(u + s) && Stripped(u + s) == Stripped(s)
  {
    var w := u + s;
    assert w[..|u|] == u && w[|u|..] == s;
    AfterSlashAt(w, |u| - 1);
  }

  /** strip_antisocial_prefixes() takes off exactly the "/", "./" and "../" in front; what is
      left is the name, or "." for nothing and for "..". */
  lemma {:induction false} StripDropsUnits(us: seq<seq<byte>>, t: seq<byte>)
    requires (forall u :: u in us ==> IsUnit(u)) && !Antisocial(t)
    ensures Stripped(Joined(us) + t) == t
    ensures Strip(Joined(us) + t) == if t == [] || t == [DOT, DOT] then [DOT] else t
  {
    if us == [] {
      assert Joined(us) + t == t;
    } else {
      assert Joined(us) + t == us[0] + (Joined(us[1..]) + t);
      DropsUnit(us[0], Joined(us[1..]) + t);
      StripDropsUnits(us[1..], t);
    }
  }

  /** ... and every name is of that form. */
  lemma {:induction false} StripSplits(s: seq<byte>) returns (us: seq<seq<byte>>)
    ensures (forall u :: u in us ==> IsUnit(u)) && s == Joined(us) + Stripped(s)
    decreases |s|
  {
    us := [];
    if Antisocial(s) {
      var n := if s[0] == SLASH then 1 else if s[..2] == [DOT, SLASH] then 2 else 3;
      assert IsUnit(s[..n]) && s == s[..n] + s[n..];
      DropsUnit(s[..n], s[n..]);
      var rest := StripSplits(s[n..]);
      us := [s[..n]] + rest;
      assert us[1..] == rest;
      assert s == s[..n] + (Joined(rest) + Stripped(s));
    }
  }

  // ---------------------------------------------------------------------
  // The checksum
  // ---------------------------------------------------------------------

  const CHKSUM_START: nat := 148
  const CHKSUM_END: nat := 156

  /** The sum of the first n bytes, the chksum field read as spaces. */
  function Chksum(h: seq<byte>, n: nat): nat
    requires n <= |h|
  {
    if n == 0 then 0
    else Chksum(h, n - 1) + (if CHKSUM_START <= n - 1 < CHKSUM_END then 32 else h[n - 1])
  }

  /** calculate_chksum() */
  method CalculateChksum(h: array<byte>) returns (chksum: nat)
    requires h.Length == HEADER_SIZE
    ensures chksum == Chksum(h[..], HEADER_SIZE)
  {
    chksum := 0;
    var i := 0;
    while i < HEADER_SIZE
      invariant 0 <= i <= HEADER_SIZE && chksum == Chksum(h[..], i)
    {
      chksum := chksum + (if CHKSUM_START <= i < CHKSUM_END then 32 else h[i]);
      i := i + 1;
    }
  }

  /** The checksum does not depend on the field it is stored in... */
  lemma {:induction false} ChksumOwnField(h: seq<byte>, g: seq<byte>, n: nat)
    requires n <= |h| == |g| && forall i :: 0 <= i < n && !(CHKSUM_START <= i < CHKSUM_END) ==> h[i] == g[i]
    ensures Chksum(h, n) == Chksum(g, n)
  {
    if n > 0 {
      ChksumOwnField(h, g, n - 1);
    }
  }

  /** ...and changes with any one other byte. */
  lemma {:induction false} ChksumOtherByte(h: seq<byte>, g: seq<byte>, k: nat, n: nat)
    requires k < n <= |h| == |g| && h[k] != g[k] && !(CHKSUM_START <= k < CHKSUM_END)
    requires forall i :: 0 <= i < n && i != k ==> h[i] == g[i]
    ensures Chksum(h, n) - Chksum(g, n) == h[k] as int - g[k] as int
  {
    if k == n - 1 {
      ChksumOwnField(h, g, n - 1);
    } else {
      ChksumOtherByte(h, g, k, n - 1);
    }
  }

  lemma {:induction false} ChksumBound(h: seq<byte>, n: nat)
    requires n <= |h|
    ensures Chksum(h, n) <= 255 * n
  {
    if n > 0 {
      ChksumBound(h, n - 1);
    }
  }

  // ---------------------------------------------------------------------
  // Headers
  // ---------------------------------------------------------------------

  const USTAR: seq<byte> := [117, 115, 116, 97, 114]
  const ROOT: seq<byte> := [114, 111, 111, 116]
  const MTIME: nat := 1136102400

  function Char(s: seq<byte>, i: int): byte {
    if 0 <= i < |s| then s[i] else 0
  }

  /** What strlcpy() or snprintf() stores of a text in a field. */
  function Fit(text: seq<byte>, size: nat): (t: seq<byte>)
    requires size > 0
    ensures |t| < size && (|text| < size ==> t == text)
  {
    if |text| < size then text else text[..size - 1]
  }

  /** An int converted to unsigned. */
  function Unsigned(v: int): nat {
    v % WORD
  }

  function Mode(t: byte): nat {
    if t == REGULAR then 420 else 493
  }

  /** Byte i of the header, the chksum field still empty. */
  function BlankByte(name: seq<byte>, t: byte, size: int, i: nat): byte {
    if i < 100 then Char(name, i)
    else if i < 108 then Char(Octal(Mode(t), 7), i - 100)
    else if i < 116 then Char(Zeros(7), i - 108)
    else if i < 124 then Char(Zeros(7), i - 116)
    else if i < 136 then Char(Octal(Unsigned(size), 11), i - 124)
    else if i < 148 then Char(Octal(MTIME, 11), i - 136)
    else if i == 156 then t
    else if 257 <= i < 263 then Char(USTAR, i - 257)
    else if 263 <= i < 265 then ZERO
    else if 265 <= i < 297 then Char(ROOT, i - 265)
    else if 297 <= i < 329 then Char(ROOT, i - 297)
    else 0
  }

  function Blank(name: seq<byte>, t: byte, size: int): (h: seq<byte>)
    ensures |h| == HEADER_SIZE
  {
    seq(HEADER_SIZE, i requires 0 <= i < HEADER_SIZE => BlankByte(name, t, size, i))
  }

  /** The text of the chksum field. */
  function ChksumField(h: seq<byte>): seq<byte>
    requires |h| == HEADER_SIZE
  {
    Octal(Chksum(h, HEADER_SIZE), 7)
  }

  function WithField(h: seq<byte>, text: seq<byte>, i: nat): byte
    requires i < |h|
  {
    if CHKSUM_START <= i < CHKSUM_END then Char(text, i - CHKSUM_START) else h[i]
  }

  /** The finished header. */
  function Header(name: seq<byte>, t: byte, size: int): (h: seq<byte>)
    ensures |h| == HEADER_SIZE
  {
    var b := Blank(name, t, size);
    seq(HEADER_SIZE, i requires 0 <= i < HEADER_SIZE => WithField(b, ChksumField(b), i))
  }

  /** strlcpy() or snprintf() into the field of the given size at the given offset. */
  method Put(h: array<byte>, at: nat, size: nat, text: seq<byte>)
    requires size > 0 && at + size <= h.Length
    modifies h
    ensures forall i :: 0 <= i < h.Length ==>
            h[i] == if at <= i <= at + |Fit(text, size)| then Char(Fit(text, size), i - at) else old(h[i])
  {
    var t := Fit(text, size);
    forall i | 0 <= i < |t| {
      h[at + i] := t[i];
    }
    h[at + |t|] := 0;
  }

  lemma FieldsFit(t: byte, size: int)
    ensures |Octal(Mode(t), 7)| == 7 && |Octal(Unsigned(size), 11)| == 11 && |Octal(MTIME, 11)| == 11
  {
    assert Pow8(5) == 32768;
    assert Pow8(7) == 64 * Pow8(5);
    assert Pow8(11) == 4096 * Pow8(7);
    OctalLength(Mode(t), 7);
    OctalLength(Unsigned(size), 11);
    OctalLength(MTIME, 11);
  }

  /** ustar_make_header() */
  method MakeHeader(fileName: seq<byte>, t: byte, size: int, h: array<byte>) returns (ok: bool)
    requires h.Length == HEADER_SIZE && (t == REGULAR || t == DIRECTORY)
    modifies h
    ensures ok <==> |Strip(fileName)| <= 99
    ensures h[..] == if ok then Header(Strip(fileName), t, size) else old(h[..])
  {
    var name := StripPrefixes(fileName);
    if |name| > 99 {
      return false;
    }
    FillBlank(name, t, size, h);
    assert h[..] == Blank(name, t, size);
    var chksum := CalculateChksum(h);
    var text := FormatOctal(chksum, 7);
    ChksumText(h[..]);
    Put(h, CHKSUM_START, 8, text);
    assert h[..] == Header(name, t, size);
    return true;
  }

  lemma ChksumText(h: seq<byte>)
    requires |h| == HEADER_SIZE
    ensures |ChksumField(h)| == 7 && Chksum(h, HEADER_SIZE) < WORD
  {
    ChksumBound(h, HEADER_SIZE);
    assert Pow8(5) == 32768;
    assert Pow8(7) == 64 * Pow8(5);
    OctalLength(Chksum(h, HEADER_SIZE), 7);
  }

  /** Everything but the checksum. */
  method FillBlank(name: seq<byte>, t: byte, size: int, h: array<byte>)
    requires h.Length == HEADER_SIZE && |name| <= 99
    modifies h
    ensures forall i :: 0 <= i < HEADER_SIZE ==> h[i] == BlankByte(name, t, size, i)
  {
    hide Octal, Zeros, Mode, Unsigned;
    forall i | 0 <= i < HEADER_SIZE {
      h[i] := 0;
    }
    FieldsFit(t, size);
    Put(h, 0, 100, name);
    var mode := FormatOctal(Mode(t), 7);
    Put(h, 100, 8, mode);
    Put(h, 108, 8, Zeros(7));
    Put(h, 116, 8, Zeros(7));
    var sizeText := FormatOctal(Unsigned(size), 11);
    Put(h, 124, 12, sizeText);
    var mtime := FormatOctal(MTIME, 11);
    Put(h, 136, 12, mtime);
    h[156] := t;
    Put(h, 257, 6, USTAR);
    h[263], h[264] := ZERO, ZERO;
    Put(h, 297, 32, ROOT);
    Put(h, 265, 32, ROOT);
  }

  // ---------------------------------------------------------------------
  // Parsing
  // ---------------------------------------------------------------------

  datatype Parsed =
    | Eof
    | File(name: seq<byte>, fileType: byte, size: nat)
    | NotUstar | BadVersion | CorruptChksum | ChksumMismatch | NameTooLong | BadType | CorruptSize | TooLarge

  /** The C string at the start of s. */
  function CString(s: seq<byte>): (r: seq<byte>)
    ensures |r| <= |s| && forall i :: 0 <= i < |r| ==> r[i] == s[i] != 0
    ensures |r| < |s| ==> s[|r|] == 0
  {
    if s == [] || s[0] == 0 then [] else [s[0]] + CString(s[1..])
  }

  ghost predicate AllZeros(s: seq<byte>) {
    forall i :: 0 <= i < |s| ==> s[i] == 0
  }

  /** What ustar_parse_header() finds in a header. */
  ghost function Parse(h: seq<byte>): Parsed
    requires |h| == HEADER_SIZE
  {
    var chksum := ParseOctal(h[148..156]);
    var size := ParseOctal(h[124..136]);
    if AllZeros(h) then Eof
    else if h[257..263] != USTAR + [0] then NotUstar
    else if h[263] != ZERO || h[264] != ZERO then BadVersion
    else if chksum == None then CorruptChksum
    else if chksum.value != Chksum(h, HEADER_SIZE) then ChksumMismatch
    else if h[99] != 0 || h[345] != 0 then NameTooLong
    else if h[156] != REGULAR && h[156] != DIRECTORY then BadType
    else if h[156] == REGULAR && size == None then CorruptSize
    else if h[156] == REGULAR && size.value > INT_MAX then TooLarge
    else File(Strip(CString(h[0..100])), h[156], if h[156] == REGULAR then size.value else 0)
  }

  /** is_all_zeros() of the header. */
  method IsAllZeros(h: array<byte>) returns (r: bool)
    ensures r <==> AllZeros(h[..])
  {
    var i := 0;
    while i < h.Length
      invariant 0 <= i <= h.Length && forall j :: 0 <= j < i ==> h[j] == 0
    {
      if h[i] != 0 {
        assert h[..][i] != 0;
        return false;
      }
      i := i + 1;
    }
    return true;
  }

  /** ustar_parse_header() */
  method ParseHeader(h: array<byte>) returns (r: Parsed)
    requires h.Length == HEADER_SIZE
    ensures r == Parse(h[..])
  {
    var zeros := IsAllZeros(h);
    if zeros {
      return Eof;
    }
    var s := h[..];
    assert h[257..263] == s[257..263] && h[0..100] == s[0..100] && h[148..156] == s[148..156]
           && h[124..136] == s[124..136];
    if h[257..263] != USTAR + [0] {
      return NotUstar;
    }
    if h[263] != ZERO || h[264] != ZERO {
      return BadVersion;
    }
    var ok, chksum := ParseField(h, 148, 8);
    if !ok {
      return CorruptChksum;
    }
    var sum := CalculateChksum(h);
    if chksum != sum {
      return ChksumMismatch;
    }
    if h[99] != 0 || h[345] != 0 {
      return NameTooLong;
    }
    if h[156] != REGULAR && h[156] != DIRECTORY {
      return BadType;
    }
    var size := 0;
    if h[156] == REGULAR {
      ok, size := ParseField(h, 124, 12);
      if !ok {
        return CorruptSize;
      }
      if size > INT_MAX {
        return TooLarge;
      }
    }
    var name := StripPrefixes(CString(h[0..100]));
    return File(name, h[156], size);
  }

  // ---------------------------------------------------------------------
  // Writing and reading undo each other
  // ---------------------------------------------------------------------

  lemma CStringOf(s: seq<byte>, name: seq<byte>)
    requires |name| < |s| && (forall i :: 0 <= i < |name| ==> s[i] == name[i] != 0) && s[|name|] == 0
    ensures CString(s) == name
  {
    assert |CString(s)| == |name|;
  }

  /** A field of a finished header. */
  lemma FieldOf(name: seq<byte>, t: byte, size: int, from: nat, to: nat)
    requires from <= to <= HEADER_SIZE && (to <= CHKSUM_START || CHKSUM_END <= from)
    ensures var f := Header(name, t, size)[from..to];
            |f| == to - from && forall i :: 0 <= i < to - from ==> f[i] == BlankByte(name, t, size, from + i)
  {
  }

  lemma HeaderChksum(name: seq<byte>, t: byte, size: int)
    ensures var h := Header(name, t, size);
            ParseOctal(h[148..156]) == Some(Chksum(h, HEADER_SIZE))
  {
    var b, h := Blank(name, t, size), Header(name, t, size);
    ChksumOwnField(b, h, HEADER_SIZE);
    ChksumText(b);
    var f := h[148..156];
    assert f[..7] == ChksumField(b);
    OctalRoundTrip(Chksum(b, HEADER_SIZE), 7, f);
  }

  lemma HeaderSize(name: seq<byte>, t: byte, size: int)
    ensures ParseOctal(Header(name, t, size)[124..136]) == Some(Unsigned(size))
  {
    var f := Header(name, t, size)[124..136];
    FieldOf(name, t, size, 124, 136);
    FieldsFit(t, size);
    assert f[..11] == Octal(Unsigned(size), 11);
    OctalRoundTrip(Unsigned(size), 11, f);
  }

  lemma HeaderName(name: seq<byte>, t: byte, size: int)
    requires |name| <= 99 && 0 !in name
    ensures CString(Header(name, t, size)[0..100]) == name
  {
    FieldOf(name, t, size, 0, 100);
    assert forall i :: 0 <= i < |name| ==> name[i] in name;
    CStringOf(Header(name, t, size)[0..100], name);
  }

  lemma HeaderMagic(name: seq<byte>, t: byte, size: int)
    ensures var h := Header(name, t, size);
            && h[257..263] == USTAR + [0] && h[263] == ZERO && h[264] == ZERO && h[156] == t && h[345] == 0
            && !AllZeros(h) && (|name| <= 99 ==> h[99] == 0)
  {
    var h := Header(name, t, size);
    FieldOf(name, t, size, 257, 263);
    assert forall i :: 0 <= i < 6 ==> h[257..263][i] == Char(USTAR, i);
    assert h[263] == ZERO;
  }

  /** For every name and every 32-bit size: a header that ustar_make_header() makes is
      read back without error to the stripped name, the type and the size (0 for a
      directory), except that a regular file of negative size is refused. */
  lemma RoundTrip(fileName: seq<byte>, t: byte, size: int)
    requires 0 !in fileName && |Strip(fileName)| <= 99 && (t == REGULAR || t == DIRECTORY)
    requires -0x8000_0000 <= size <= INT_MAX
    ensures Parse(Header(Strip(fileName), t, size)) ==
            if t == REGULAR && size < 0 then TooLarge
            else File(Strip(fileName), t, if t == REGULAR then size else 0)
  {
    hide Header, ParseOctal, Chksum, CString, AllZeros;
    var name := Strip(fileName);
    StripSafe(fileName);
    StrippedSuffix(fileName);
    HeaderMagic(name, t, size);
    HeaderChksum(name, t, size);
    HeaderSize(name, t, size);
    HeaderName(name, t, size);
  }

  /** No header, whoever made it, yields a name that leaves the directory by its start. */
  lemma ParsedNameSafe(h: seq<byte>)
    requires |h| == HEADER_SIZE && Parse(h).File?
    ensures Safe(Parse(h).name) && Parse(h).size <= INT_MAX
  {
    StripSafe(CString(h[0..100]));
  }

  /** Damage to any one byte outside the chksum field of a good header is noticed. */
  lemma DamageNoticed(h: seq<byte>, g: seq<byte>, k: nat)
    requires |h| == |g| == HEADER_SIZE && Parse(h).File?
    requires k < HEADER_SIZE && !(CHKSUM_START <= k < CHKSUM_END) && h[k] != g[k]
    requires forall i :: 0 <= i < HEADER_SIZE && i != k ==> h[i] == g[i]
    ensures !Parse(g).File? && !Parse(g).Eof?
  {
    ChksumOtherByte(h, g, k, HEADER_SIZE);
    assert g[148..156] == h[148..156];
    NotAllZeros(h, g, k);
  }

  lemma NotAllZeros(h: seq<byte>, g: seq<byte>, k: nat)
    requires |h| == |g| == HEADER_SIZE && h[257..263] == USTAR + [0]
    requires k < HEADER_SIZE && forall i :: 0 <= i < HEADER_SIZE && i != k ==> h[i] == g[i]
    ensures !AllZeros(g)
  {
    assert h[257] == h[257..263][0] == 117 && h[258] == h[257..263][1] == 115;
    assert g[257] != 0 || g[258] != 0;
  }

  /** The fields that tell nothing about the contents: mode 0644, or 0755 for a directory, owner
      and group number 0, their names "root", and 2006-01-01 08:00:00 UTC in octal. */
  lemma HeaderOwner(name: seq<byte>, t: byte, size: int)
    requires |name| <= 99
    ensures var h := Header(name, t, size);
            && h[100..108]
               == (if t == REGULAR then [48, 48, 48, 48, 54, 52, 52, 0] else [48, 48, 48, 48, 55, 53, 53, 0])
            && h[108..116] == [48, 48, 48, 48, 48, 48, 48, 0] && h[116..124] == [48, 48, 48, 48, 48, 48, 48, 0]
            && ParseOctal(h[136..148]) == Some(1136102400)
            && CString(h[265..297]) == ROOT && CString(h[297..329]) == ROOT
  {
    hide ParseOctal, Header, Octal, CString, Mode;
    ModeText(t);
    OwnerNumbers(name, t, size);
    OwnerNames(name, t, size);
    HeaderTime(name, t, size);
  }

  lemma OwnerNumbers(name: seq<byte>, t: byte, size: int)
    requires |name| <= 99
    ensures var h := Header(name, t, size);
            && h[100..108] == Octal(Mode(t), 7) + [0]
            && h[108..116] == [48, 48, 48, 48, 48, 48, 48, 0] && h[116..124] == [48, 48, 48, 48, 48, 48, 48, 0]
  {
    hide Octal, Mode, Header;
    FieldOf(name, t, size, 100, 108);
    FieldOf(name, t, size, 108, 116);
    FieldOf(name, t, size, 116, 124);
    FieldsFit(t, size);
  }

  lemma OwnerNames(name: seq<byte>, t: byte, size: int)
    ensures var h := Header(name, t, size); CString(h[265..297]) == ROOT && CString(h[297..329]) == ROOT
  {
    hide Octal, Mode, Header, CString;
    FieldOf(name, t, size, 265, 297);
    FieldOf(name, t, size, 297, 329);
    CStringOf(Header(name, t, size)[265..297], ROOT);
    CStringOf(Header(name, t, size)[297..329], ROOT);
  }

  lemma HeaderTime(name: seq<byte>, t: byte, size: int)
    ensures ParseOctal(Header(name, t, size)[136..148]) == Some(1136102400)
  {
    var f := Header(name, t, size)[136..148];
    FieldOf(name, t, size, 136, 148);
    FieldsFit(t, size);
    assert f[..11] == Octal(MTIME, 11);
    OctalRoundTrip(MTIME, 11, f);
  }

  lemma ModeText(t: byte)
    ensures Octal(Mode(t), 7) == if t == REGULAR then [48, 48, 48, 48, 54, 52, 52] else [48, 48, 48, 48, 55, 53, 53]
  {
    ThreeDigits(6, 4, 4);
    ThreeDigits(7, 5, 5);
  }

  lemma ThreeDigits(a: nat, b: nat, c: nat)
    requires 0 < a < 8 && b < 8 && c < 8
    ensures Octal(64 * a + 8 * b + c, 7) == [48, 48, 48, 48, ZERO + a, ZERO + b, ZERO + c]
  {
    var v := 64 * a + 8 * b + c;
    assert v / 8 == 8 * a + b && v / 8 / 8 == a && a / 8 == 0;
    assert Digits(a) == [] + [ZERO + a];
    assert Digits(v / 8) == Digits(a) + [ZERO + b];
    assert Digits(v) == Digits(v / 8) + [ZERO + c];
  }

  /** The bytes of s added up. */
  ghost function Sum(s: seq<byte>): nat {
    if s == [] then 0 else Sum(s[..|s| - 1]) + s[|s| - 1]
  }

  ghost function Spaces(n: nat): seq<byte> {
    seq(n, _ => 32)
  }

  lemma {:induction false} ChksumIsSum(h: seq<byte>, g: seq<byte>, n: nat)
    requires n <= |h| == |g|
    requires forall i :: 0 <= i < n ==> g[i] == if CHKSUM_START <= i < CHKSUM_END then 32 else h[i]
    ensures Chksum(h, n) == Sum(g[..n])
  {
    if n > 0 {
      ChksumIsSum(h, g, n - 1);
      assert g[..n][..n - 1] == g[..n - 1];
    }
  }

  /** The name of a file by the ustar format: the prefix field, if it is not empty, a slash,
      and the name field. */
  ghost function FullName(h: seq<byte>): seq<byte>
    requires |h| == HEADER_SIZE
  {
    var prefix := CString(h[345..500]);
    (if prefix == [] then [] else prefix + [SLASH]) + CString(h[0..100])
  }

  lemma MagicField(h: seq<byte>)
    requires |h| == HEADER_SIZE
    ensures h[257..265] == [117, 115, 116, 97, 114, 0, 48, 48] <==>
            h[257..263] == USTAR + [0] && h[263] == ZERO && h[264] == ZERO
  {
    var f := h[257..265];
    assert f[..6] == h[257..263] && f[6] == h[263] && f[7] == h[264];
    assert f == f[..6] + [f[6], f[7]];
    assert USTAR + [0] + [ZERO, ZERO] == [117, 115, 116, 97, 114, 0, 48, 48];
  }

  /** A header is accepted exactly if it is a ustar header, version "00", whose checksum field
      holds the sum of its bytes with that field filled with spaces, of a regular file below
      2 GB or a directory, without a prefix and with a terminated name. */
  lemma AcceptedExactly(h: seq<byte>)
    requires |h| == HEADER_SIZE
    ensures Parse(h).File? <==>
            && h[257..265] == [117, 115, 116, 97, 114, 0, 48, 48]
            && ParseOctal(h[148..156]) == Some(Sum(h[..148] + Spaces(8) + h[156..]))
            && (h[156] == 53 || (h[156] == 48 && ParseOctal(h[124..136]).Some?
                                 && ParseOctal(h[124..136]).value < 0x8000_0000))
            && CString(h[345..500]) == [] && h[99] == 0
  {
    hide ParseOctal;
    var g := h[..148] + Spaces(8) + h[156..];
    ChksumIsSum(h, g, HEADER_SIZE);
    assert g[..HEADER_SIZE] == g;
    MagicField(h);
    assert h[345..500][0] == h[345];
    if h[257..263] == USTAR + [0] { NotAllZeros(h, h, 0); }
  }

  /** So the name it yields is the full name of the file, and of the type the header says. */
  lemma ParsedFullName(h: seq<byte>)
    requires |h| == HEADER_SIZE && Parse(h).File?
    ensures Parse(h).name == Strip(FullName(h)) && |CString(h[0..100])| <= 99
    ensures Parse(h).fileType == h[156] && (Parse(h).fileType == REGULAR || Parse(h).fileType == DIRECTORY)
  {
    assert h[345..500][0] == h[345];
    assert h[0..100][99] == h[99];
    assert FullName(h) == CString(h[0..100]);
  }
}
