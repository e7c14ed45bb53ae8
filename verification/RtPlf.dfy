/**
 The base-2 conversions of the x64-linux platform layer (src/rtplf). Shifts are written as the
 arithmetic they do on a uint32_t. What sprintf and sscanf do for other bases is a parameter.
 */
module RtPlf {
  import opened Words

  const RTSTRMAX: uint16 := 50000

  datatype Base = BASE_AUTO | BASE_2 | BASE_8 | BASE_10 | BASE_16

  // ----- C strings

  /** The characters before the terminating null character. */
  function UpToNul(s: seq<char>): (r: string)
    ensures r <= s && (|r| < |s| ==> s[|r|] == '\0')
    ensures forall i :: 0 <= i < |r| ==> r[i] != '\0'
  {
    if s == [] || s[0] == '\0' then [] else [s[0]] + UpToNul(s[1..])
  }

  /** There is a terminating null character, and the string is not too long for this layer. */
  predicate IsCString(s: seq<char>) {
    |UpToNul(s)| < |s| && |UpToNul(s)| < RTSTRMAX as nat
  }

  lemma UpToNulIs(s: seq<char>, n: nat)
    requires n < |s| && s[n] == '\0' && forall i :: 0 <= i < n ==> s[i] != '\0'
    ensures UpToNul(s) == s[..n]
  {
  }

  /** Skipping characters before the end of the string. */
  lemma UpToNulFrom(s: seq<char>, k: nat)
    requires IsCString(s) && k <= |UpToNul(s)|
    ensures IsCString(s[k..]) && UpToNul(s[k..]) == UpToNul(s)[k..]
  {
  }

  /** RTStrlen of the string at str + at. */
  method Strlen(str: array<char>, at: nat) returns (len: uint16)
    requires at <= str.Length && IsCString(str[at..])
    ensures len as nat == |UpToNul(str[at..])|
  {
    ghost var s := UpToNul(str[at..]);
    len := 0;
    while str[at + len as nat] != '\0'
      invariant len as nat <= |s|
      decreases |s| - len as nat
    {
      assert len as nat < |s| by {
        assert str[at..][len] == str[at + len as nat];
      }
      len := len + 1;
      assert len < RTSTRMAX;
    }
  }

  /** What a buffer of the given size holds after copying text into it. */
  predicate HoldsText(buffer: seq<char>, size: nat, text: string) {
    && 0 < size <= |buffer|
    && var n := if |text| < size then |text| else size - 1;
       buffer[..n] == text[..n] && forall i :: n <= i < size ==> buffer[i] == '\0'
  }

  /** The string at a pointer that may be NULL. */
  function StringAt(str: array?<char>): Option<string>
    reads if str != null then {str} else {}
  {
    if str == null then None else Some(UpToNul(str[..]))
  }

  /** What RTStrncpy returns: `usable` says that dst is not NULL and its size is not 0. */
  predicate CopyReturns(usable: bool, size: nat, src: Option<string>) {
    if !usable then src.Some? else src.None? || |src.value| >= size
  }

  /** What it is documented to return: whether the string was copied entirely. */
  predicate CopyPromised(usable: bool, size: nat, src: Option<string>) {
    if !usable then src.None? else src.None? || |src.value| < size
  }

  /** The two are opposite, except for a NULL string copied into a usable buffer. */
  lemma CopyAgreesIff(usable: bool, size: nat, src: Option<string>)
    ensures CopyReturns(usable, size, src) == CopyPromised(usable, size, src) <==> usable && src.None?
  {
  }

  /** RTStrncpy. strncpy fills the rest of the buffer with null characters. */
  method Strncpy(dst: array?<char>, dstSize: uint16, src: array?<char>) returns (truncated: bool)
    requires dstSize <= RTSTRMAX
    requires dst != null ==> dst != src && dstSize as nat <= dst.Length
    requires src != null ==> IsCString(src[..])
    modifies if dst != null then {dst} else {}
    ensures truncated == CopyReturns(dst != null && dstSize > 0, dstSize as nat, old(StringAt(src)))
    ensures dst != null && dstSize > 0 && src != null ==>
              && HoldsText(dst[..], dstSize as nat, UpToNul(src[..]))
              && dst[dstSize..] == old(dst[dstSize..])
    ensures dst != null && dstSize > 0 && src == null ==> dst[..] == old(dst[..])[0 := '\0']
    ensures dst != null && dstSize == 0 ==> dst[..] == old(dst[..])
  {
    truncated := true;
    if dst == null || dstSize == 0 {
      if src == null {
        truncated := false;
      }
    } else if src == null {
      dst[0] := '\0';
    } else {
      assert src[0..] == src[..];
      ghost var s := UpToNul(src[..]);
      var len := Strlen(src, 0);
      truncated := len >= dstSize;
      var n := if truncated then dstSize as nat else len as nat;
      for i := 0 to n
        invariant dst[..i] == s[..i]
        invariant dst[dstSize..] == old(dst[dstSize..]) && src[..] == old(src[..])
      {
        assert src[..][i] == s[i];
        dst[i] := src[i];
      }
      for i := n to dstSize as nat
        invariant dst[..n] == s[..n] && forall j :: n <= j < i ==> dst[j] == '\0'
        invariant dst[dstSize..] == old(dst[dstSize..])
      {
        dst[i] := '\0';
      }
      assert truncated ==> dst[..n - 1] == dst[..n][..n - 1] == s[..n - 1];
      if truncated {
        dst[dstSize - 1] := '\0';
      }
    }
  }

  // ----- Binary digits

  function Pow2(n: nat): (p: nat)
    ensures p > 0
  {
    if n == 0 then 1 else 2 * Pow2(n - 1)
  }

  function DigitOf(one: bool): char {
    if one then '1' else '0'
  }

  /** x without its last j bits. */
  function DropLow(x: nat, j: nat): nat {
    if j == 0 then x else DropLow(x, j - 1) / 2
  }

  /** The k most significant bits of x as a number. */
  function Prefix(x: uint32, k: nat): nat
    requires k <= 32
  {
    DropLow(x as nat, 32 - k)
  }

  /** The k most significant bits of x, most significant first. */
  function BinaryDigits(x: uint32, k: nat): (s: string)
    requires k <= 32
    ensures |s| == k
  {
    seq(k, i requires 0 <= i < k => DigitOf(Prefix(x, i + 1) % 2 == 1))
  }

  predicate IsBinary(s: string) {
    forall i :: 0 <= i < |s| ==> s[i] == '0' || s[i] == '1'
  }

  /** The number a string of binary digits stands for. */
  function BinaryValue(s: string): nat
    requires IsBinary(s)
  {
    if s == [] then 0 else 2 * BinaryValue(s[..|s| - 1]) + if s[|s| - 1] == '1' then 1 else 0
  }

  /** How many characters rtplfScanBase2 takes: the leading binary digits among the first 32. */
  function ScanLength(s: string, limit: nat): (n: nat)
    ensures n <= limit && n <= |s| && IsBinary(s[..n])
    ensures n < limit && n < |s| ==> s[n] != '0' && s[n] != '1'
  {
    if limit == 0 || s == [] || (s[0] != '0' && s[0] != '1') then 0 else 1 + ScanLength(s[1..], limit - 1)
  }

  function Scan(s: string): Option<nat> {
    var n := ScanLength(s, 32);
    if n == 0 then None else Some(BinaryValue(s[..n]))
  }

  /** The binary digits to be scanned are the first n characters: all the leading ones, but at most 32. */
  predicate LeadingDigits(s: string, n: nat) {
    && 0 < n <= 32 && n <= |s| && IsBinary(s[..n])
    && (n < 32 && n < |s| ==> s[n] != '0' && s[n] != '1')
  }

  /** Scanning succeeds if and only if the string starts with a digit, and yields the leading digits' value. */
  lemma ScanIs(s: string)
    ensures Scan(s).Some? <==> s != [] && (s[0] == '0' || s[0] == '1')
    ensures forall n: nat :: LeadingDigits(s, n) ==> Scan(s) == Some(BinaryValue(s[..n]))
  {
    if s != [] && (s[0] == '0' || s[0] == '1') {
      assert ScanLength(s, 32) == 1 + ScanLength(s[1..], 31);
    }
    forall n: nat | LeadingDigits(s, n)
      ensures Scan(s) == Some(BinaryValue(s[..n]))
    {
      ScanLengthIs(s, 32, n);
    }
  }

  /** Digits followed by anything else, or by more digits than are scanned. */
  lemma DigitsThenRest(d: string, t: string)
    requires 0 < |d| <= 32 && IsBinary(d)
    requires |d| == 32 || t == [] || (t[0] != '0' && t[0] != '1')
    ensures LeadingDigits(d + t, |d|) && (d + t)[..|d|] == d
  {
    assert (d + t)[..|d|] == d;
  }

  /** Positional notation: a digit more doubles the number and adds that digit. */
  lemma BinaryValueIs(s: string)
    requires IsBinary(s)
    ensures BinaryValue("") == 0
    ensures BinaryValue(s + "0") == 2 * BinaryValue(s) && BinaryValue(s + "1") == 2 * BinaryValue(s) + 1
  {
    assert (s + "0")[..|s|] == s && (s + "1")[..|s|] == s;
  }

  // ----- The printer

  /** x shifted left i times. */
  function Left(x: uint32, i: nat): uint32 {
    if i == 0 then x else ((2 * Left(x, i - 1) as int) % 0x1_0000_0000) as uint32
  }

  /** x shifted left i times with nothing lost. */
  function Double(x: nat, i: nat): nat {
    if i == 0 then x else 2 * Double(x, i - 1)
  }

  lemma {:induction false} DropDouble(x: nat, i: nat, j: nat)
    requires i <= j
    ensures DropLow(Double(x, i), j) == DropLow(x, j - i)
  {
    if i > 0 {
      DropDouble(x, i - 1, j - 1);
      DropOne(Double(x, i - 1), j);
    }
  }

  lemma {:induction false} DropOne(y: nat, j: nat)
    requires j > 0
    ensures DropLow(2 * y, j) == DropLow(y, j - 1)
  {
    if j > 1 {
      DropOne(y, j - 1);
    } else {
      assert DropLow(2 * y, 0) == 2 * y;
    }
  }

  lemma {:induction false} DropMore(y: nat, i: nat, j: nat)
    ensures DropLow(y, i + j) == DropLow(DropLow(y, i), j)
  {
    if j > 0 {
      DropMore(y, i, j - 1);
    }
  }

  lemma Drop4(y: nat)
    ensures DropLow(y, 4) == y / 16
  {
    assert DropLow(y, 1) == y / 2;
    assert DropLow(y, 2) == y / 4;
    assert DropLow(y, 3) == y / 8;
  }

  lemma Drop32(y: nat)
    ensures DropLow(y, 32) == y / 0x1_0000_0000
  {
    Drop4(y);
    Drop4(y / 16);
    DropMore(y, 4, 4);
    assert forall z: nat {:trigger DropLow(z, 8)} :: DropLow(z, 8) == z / 256 by {
      forall z: nat ensures DropLow(z, 8) == z / 256 {
        Drop4(z);
        Drop4(z / 16);
        DropMore(z, 4, 4);
      }
    }
    DropMore(y, 8, 8);
    DropMore(y, 16, 8);
    DropMore(y, 24, 8);
  }

  /** Shifting left pushes out the most significant bits. */
  lemma {:induction false} ShiftedOut(x: uint32, i: nat)
    requires i <= 32
    ensures Double(x as nat, i) == Prefix(x, i) * 0x1_0000_0000 + Left(x, i) as nat
  {
    Drop32(Double(x as nat, i));
    DropDouble(x as nat, i, 32);
    LeftIsModulo(x, i);
  }

  lemma DoubledModulo(y: nat)
    ensures (2 * (y % 0x1_0000_0000)) % 0x1_0000_0000 == (2 * y) % 0x1_0000_0000
  {
    assert y == 0x1_0000_0000 * (y / 0x1_0000_0000) + y % 0x1_0000_0000;
  }

  lemma {:induction false} LeftIsModulo(x: uint32, i: nat)
    ensures Left(x, i) as nat == Double(x as nat, i) % 0x1_0000_0000
  {
    if i > 0 {
      LeftIsModulo(x, i - 1);
      DoubledModulo(Double(x as nat, i - 1));
    }
  }

  /** The next digit is the bit about to be pushed out. */
  lemma PrefixNext(x: uint32, i: nat)
    requires i < 32
    ensures Prefix(x, i + 1) == 2 * Prefix(x, i) + (if Left(x, i) >= 0x8000_0000 then 1 else 0)
  {
    ShiftedOut(x, i);
    ShiftedOut(x, i + 1);
  }

  /** rtplfPrintBase2 */
  method PrintBase2(x: uint32, buffer: array<char>, size: uint16) returns (ret: int32)
    requires size > 0 && (size as nat <= buffer.Length || 32 < buffer.Length)
    modifies buffer
    ensures var k := if size as nat - 1 < 32 then size as nat - 1 else 32;
            && ret == 32 && buffer[..k] == BinaryDigits(x, k) && buffer[k] == '\0'
            && buffer[k + 1..] == old(buffer[k + 1..])
  {
    hide Prefix, Left;
    ghost var k := if size as nat - 1 < 32 then size as nat - 1 else 32;
    var n: int32 := 0;
    ret := 0;
    var shifted := x;
    NoShift(x);
    var i := 0;
    while i < 32
      invariant 0 <= i <= 32 && ret as int == i
      invariant n as int == if i < k then i else k
      invariant shifted == Left(x, i)
      invariant buffer[..n] == BinaryDigits(x, n as nat)
      invariant buffer[k + 1..] == old(buffer[k + 1..])
    {
      NextDigit(x, i);
      var c := if shifted >= 0x8000_0000 then '1' else '0';
      if ret < size as int32 - 1 {
        ghost var before := buffer[..n];
        buffer[n] := c;
        n := n + 1;
        assert buffer[..n] == before + [c];
        assert BinaryDigits(x, n as nat) == BinaryDigits(x, n as nat - 1) + [c];
      }
      ret := ret + 1;
      shifted := ((2 * shifted as int) % 0x1_0000_0000) as uint32;
      i := i + 1;
    }
    buffer[n] := '\0';
  }

  lemma NoShift(x: uint32)
    ensures Left(x, 0) == x
  {
  }

  lemma NextDigit(x: uint32, i: nat)
    requires i < 32
    ensures DigitOf(Prefix(x, i + 1) % 2 == 1) == if Left(x, i) >= 0x8000_0000 then '1' else '0'
    ensures Left(x, i + 1) == ((2 * Left(x, i) as int) % 0x1_0000_0000) as uint32
  {
    PrefixNext(x, i);
  }

  // ----- The scanner

  lemma ScanNext(s: string, i: nat)
    requires i < |s| && IsBinary(s[..i])
    ensures s[i] == '0' || s[i] == '1' ==>
              && IsBinary(s[..i + 1])
              && BinaryValue(s[..i + 1]) == 2 * BinaryValue(s[..i]) + (if s[i] == '1' then 1 else 0)
  {
    assert s[..i + 1][..i] == s[..i];
  }

  lemma ScanLengthIs(s: string, limit: nat, n: nat)
    requires n <= |s| && n <= limit && IsBinary(s[..n])
    requires n < limit && n < |s| ==> s[n] != '0' && s[n] != '1'
    ensures ScanLength(s, limit) == n
  {
  }

  lemma {:induction false} ValueFits(s: string)
    requires IsBinary(s)
    ensures BinaryValue(s) < Pow2(|s|)
  {
    if s != [] {
      ValueFits(s[..|s| - 1]);
    }
  }

  lemma {:induction false} Pow2Grows(a: nat, b: nat)
    requires a <= b
    ensures Pow2(a) <= Pow2(b)
  {
    if a < b {
      Pow2Grows(a, b - 1);
    }
  }

  /** rtplfScanBase2 on the string at str + at. */
  method ScanBase2(str: array<char>, at: nat) returns (parsed: Option<uint32>)
    requires at <= str.Length && IsCString(str[at..])
    ensures parsed.Some? <==> Scan(UpToNul(str[at..])).Some?
    ensures parsed.Some? ==> parsed.value as nat == Scan(UpToNul(str[at..])).value
    ensures var s := UpToNul(str[at..]);
            && (parsed.Some? <==> s != [] && (s[0] == '0' || s[0] == '1'))
            && forall n: nat :: LeadingDigits(s, n) ==> parsed.Some? && parsed.value as nat == BinaryValue(s[..n])
  {
    hide Pow2, UpToNul, LeadingDigits;
    ghost var s := UpToNul(str[at..]);
    ScanIs(s);
    parsed := None;
    var len := Strlen(str, at);
    if len > 0 {
      var tmp: uint32 := 0;
      var parsing, parsedOneChar := true, false;
      if len > 32 {
        len := 32;
      }
      var i: uint16 := 0;
      ghost var n := 0;
      while i < len && parsing
        invariant 0 <= i <= len && n <= i as nat <= n + 1 && n <= 32
        invariant IsBinary(s[..n]) && tmp as nat == BinaryValue(s[..n])
        invariant parsing ==> n == i as nat
        invariant !parsing ==> n < len as nat && s[n] != '0' && s[n] != '1'
        invariant parsedOneChar <==> n > 0
      {
        assert s[i] == str[at..][i] == str[at + i as nat];
        ScanNext(s, n);
        ValueFits(s[..n]);
        Pow2Grows(n, 31);
        Pow2Of31();
        match str[at + i as nat] {
          case '0' =>
            tmp := tmp * 2;
            parsedOneChar, n := true, n + 1;
          case '1' =>
            tmp := tmp * 2 + 1;
            parsedOneChar, n := true, n + 1;
          case _ =>
            parsing := false;
        }
        i := i + 1;
      }
      ScanLengthIs(s, 32, n);
      if parsing || parsedOneChar {
        parsed := Some(tmp);
      }
    }
  }

  lemma Pow2Of31()
    ensures Pow2(31) == 0x8000_0000
  {
    assert Pow2(4) == 16;
    assert Pow2(8) == 16 * Pow2(4);
    assert Pow2(12) == 16 * Pow2(8);
    assert Pow2(16) == 16 * Pow2(12);
    assert Pow2(20) == 16 * Pow2(16);
    assert Pow2(24) == 16 * Pow2(20);
    assert Pow2(28) == 16 * Pow2(24);
    assert Pow2(31) == 8 * Pow2(28);
  }

  // ----- The public conversions

  /** The text RTU32ToString converts to before it is cut to the buffer size. */
  function Text(x: uint32, base: Base, sprintf: (Base, uint32) -> string): string {
    match base
    case BASE_2 => BinaryDigits(x, 32)
    case BASE_8 => sprintf(BASE_8, x)
    case BASE_16 => sprintf(BASE_16, x)
    case _ => sprintf(BASE_10, x)
  }

  lemma TextIs(x: uint32, sprintf: (Base, uint32) -> string)
    ensures Text(x, BASE_8, sprintf) == sprintf(BASE_8, x) && Text(x, BASE_16, sprintf) == sprintf(BASE_16, x)
    ensures Text(x, BASE_10, sprintf) == Text(x, BASE_AUTO, sprintf) == sprintf(BASE_10, x)
    ensures Text(x, BASE_2, sprintf) == BinaryDigits(x, 32)
  {
  }

  /** What is left in a buffer of the given size. */
  function Printed(x: uint32, size: nat): string
    requires size > 0
  {
    BinaryDigits(x, if size - 1 < 32 then size - 1 else 32)
  }

  /** RTU32ToString; `sprintf` is what sprintf prints for a base other than 2. */
  method U32ToString(x: uint32, base: Base, buffer: array?<char>, size: uint16, sprintf: (Base, uint32) -> string)
    returns (nchars: uint16)
    requires size <= RTSTRMAX && (buffer != null ==> size as nat <= buffer.Length)
    requires forall b :: |sprintf(b, x)| < 64 && '\0' !in sprintf(b, x)
    modifies if buffer != null then {buffer} else {}
    ensures buffer == null || size == 0 ==> nchars == 0
    ensures buffer != null && size == 0 ==> buffer[..] == old(buffer[..])
    ensures buffer != null && size > 0 ==>
              var text := Text(x, base, sprintf);
              var n := if |text| < size as nat then |text| else size as nat - 1;
              && nchars as nat == n
              && HoldsText(buffer[..], size as nat, text)
              && UpToNul(buffer[..]) == text[..n]
              && (base == BASE_2 ==> UpToNul(buffer[..]) == Printed(x, size as nat))
  {
    nchars := 0;
    if buffer != null && size > 0 {
      var tmp := new char[64];
      var n := PrintText(x, base, tmp, size, sprintf);
      ghost var text := Text(x, base, sprintf);
      if n >= size as int32 {
        n := size as int32 - 1;
      }
      nchars := n as uint16;
      var _ := Strncpy(buffer, size, tmp);
      HeldText(buffer[..], size as nat, UpToNul(tmp[..]), text);
      CutDigits(x, if size as nat - 1 < 32 then size as nat - 1 else 32);
    }
  }

  /** The switch of RTU32ToString: prints into tmp and returns the full length. */
  method PrintText(x: uint32, base: Base, tmp: array<char>, size: uint16, sprintf: (Base, uint32) -> string)
    returns (n: int32)
    requires size > 0 && tmp.Length == 64
    requires forall b :: |sprintf(b, x)| < 64 && '\0' !in sprintf(b, x)
    modifies tmp
    ensures n as int == |Text(x, base, sprintf)|
    ensures IsCString(tmp[..]) && SameWhenCut(UpToNul(tmp[..]), Text(x, base, sprintf), size as nat)
  {
    if base == BASE_2 {
      ghost var k := if size as nat - 1 < 32 then size as nat - 1 else 32;
      n := PrintBase2(x, tmp, size);
      CutDigits(x, k);
      assert forall i :: 0 <= i < k ==> tmp[i] == tmp[..k][i];
      UpToNulIs(tmp[..], k);
      assert tmp[..][..k] == tmp[..k];
    } else {
      var sprinted := Text(x, base, sprintf);
      forall i | 0 <= i < |sprinted| {
        tmp[i] := sprinted[i];
      }
      tmp[|sprinted|] := '\0';
      n := |sprinted| as int32;
      UpToNulIs(tmp[..], |sprinted|);
      assert tmp[..][..|sprinted|] == sprinted;
    }
  }

  /** The two texts look the same in a buffer of the given size. */
  predicate SameWhenCut(a: string, b: string, size: nat)
    requires size > 0
  {
    && a <= b && (|a| == |b| || |a| == size - 1)
    && forall i :: 0 <= i < |b| ==> b[i] != '\0'
  }

  lemma HeldText(buffer: seq<char>, size: nat, a: string, b: string)
    requires 0 < size <= |buffer| && SameWhenCut(a, b, size) && HoldsText(buffer, size, a)
    ensures HoldsText(buffer, size, b)
    ensures UpToNul(buffer) == b[..if |b| < size then |b| else size - 1]
  {
    var n := if |b| < size then |b| else size - 1;
    assert buffer[..n] == b[..n];
    assert forall i :: 0 <= i < n ==> buffer[i] == buffer[..n][i] == b[i];
    UpToNulIs(buffer, n);
  }

  lemma CutDigits(x: uint32, k: nat)
    requires k <= 32
    ensures BinaryDigits(x, 32)[..k] == BinaryDigits(x, k)
    ensures forall i :: 0 <= i < 32 ==> BinaryDigits(x, 32)[i] != '\0'
  {
  }

  /** The base in effect and how many characters announce it. */
  function Detect(base: Base, s: string): (Base, nat)
    requires s != []
  {
    if base != BASE_AUTO then (base, 0)
    else if s[0] == '0' then if |s| > 1 && (s[1] == 'x' || s[1] == 'X') then (BASE_16, 2) else (BASE_8, 1)
    else if s[0] == 'b' || s[0] == 'B' then (BASE_2, 1)
    else (BASE_10, 0)
  }

  /** What is parsed as a number in which base. */
  lemma ParsesAs(s: string, sscanf: (Base, string) -> Option<uint32>)
    ensures s != [] ==>
              && Parse(BASE_8, s, sscanf) == Widened(sscanf(BASE_8, s))
              && Parse(BASE_10, s, sscanf) == Widened(sscanf(BASE_10, s))
              && Parse(BASE_16, s, sscanf) == Widened(sscanf(BASE_16, s))
    ensures Parse(BASE_AUTO, "0x" + s, sscanf) == Parse(BASE_AUTO, "0X" + s, sscanf) == Widened(sscanf(BASE_16, s))
    ensures s == [] || (s[0] != 'x' && s[0] != 'X') ==> Parse(BASE_AUTO, "0" + s, sscanf) == Widened(sscanf(BASE_8, s))
    ensures s != [] && s[0] != '0' && s[0] != 'b' && s[0] != 'B' ==>
              Parse(BASE_AUTO, s, sscanf) == Widened(sscanf(BASE_10, s))
  {
    assert s[0..] == s && ("0x" + s)[2..] == s && ("0X" + s)[2..] == s && ("0" + s)[1..] == s;
  }

  /**
   Base 2, given or announced by a 'b': what follows the digits is ignored, as are digits after the
   32nd, and without a digit there is no number.
   */
  lemma ParsesBinary(d: string, t: string, sscanf: (Base, string) -> Option<uint32>)
    requires |d| <= 32 && IsBinary(d)
    requires |d| == 32 || t == [] || (t[0] != '0' && t[0] != '1')
    ensures var r := if d == [] then None else Some(BinaryValue(d));
            && Parse(BASE_2, d + t, sscanf) == r
            && Parse(BASE_AUTO, "b" + (d + t), sscanf) == r && Parse(BASE_AUTO, "B" + (d + t), sscanf) == r
  {
    hide Scan, BinaryValue, Parse;
    ScanDigits(d, t);
    ParsesLikeScan(d + t, sscanf);
  }

  lemma ScanDigits(d: string, t: string)
    requires |d| <= 32 && IsBinary(d)
    requires |d| == 32 || t == [] || (t[0] != '0' && t[0] != '1')
    ensures Scan(d + t) == if d == [] then None else Some(BinaryValue(d))
  {
    hide Scan, BinaryValue;
    ScanIs(d + t);
    if d == [] {
      assert d + t == t;
    } else {
      DigitsThenRest(d, t);
    }
  }

  lemma ParsesLikeScan(s: string, sscanf: (Base, string) -> Option<uint32>)
    ensures Parse(BASE_2, s, sscanf) == Scan(s)
    ensures Parse(BASE_AUTO, "b" + s, sscanf) == Scan(s) && Parse(BASE_AUTO, "B" + s, sscanf) == Scan(s)
  {
    hide BinaryValue, IsBinary;
    assert s[0..] == s && ("b" + s)[1..] == s && ("B" + s)[1..] == s;
  }

  function Widened(x: Option<uint32>): Option<nat> {
    match x
    case None => None
    case Some(v) => Some(v as nat)
  }

  /** The base that is documented to be inferred. */
  function PromisedBase(s: string): Base
    requires s != []
  {
    if s[0] == '0' && |s| > 1 && (s[1] == 'x' || s[1] == 'X') then BASE_16
    else if s[0] == '0' && |s| > 1 && '0' <= s[1] <= '9' then BASE_8
    else if s[0] == 'b' || s[0] == 'B' then BASE_2
    else BASE_10
  }

  /** The inferred base is another one only for a 0 that neither an 'x' nor a digit follows. */
  lemma PromisedIff(s: string)
    requires s != []
    ensures Detect(BASE_AUTO, s).0 == PromisedBase(s)
            <==> !(s[0] == '0' && (|s| == 1 || !('0' <= s[1] <= '9' || s[1] == 'x' || s[1] == 'X')))
  {
  }

  /** The result of parsing; `sscanf` is what sscanf finds in a string for a base other than 2. */
  function Parse(base: Base, s: string, sscanf: (Base, string) -> Option<uint32>): Option<nat> {
    if s == [] then None
    else
      var (effective, skip) := Detect(base, s);
      if effective == BASE_2 then Scan(s[skip..])
      else match sscanf(effective, s[skip..])
        case None => None
        case Some(v) => Some(v as nat)
  }

  /**
   RTStringToU32; x is where to store the number. With a NULL pointer for x the code returns RTFalse,
   though RTTrue is documented.
   */
  method StringToU32(str: array?<char>, base: Base, x: array?<uint32>, sscanf: (Base, string) -> Option<uint32>)
    returns (parsed: bool)
    requires str != null ==> IsCString(str[..])
    requires x != null ==> x.Length == 1
    modifies if x != null then {x} else {}
    ensures parsed <==> x != null && str != null && Parse(base, old(UpToNul(str[..])), sscanf).Some?
    ensures parsed ==> x[0] as nat == Parse(base, old(UpToNul(str[..])), sscanf).value
    ensures x != null && !parsed ==> x[0] == old(x[0])
    ensures x != null && str != null ==>
              var s := old(UpToNul(str[..]));
              && (base == BASE_2 ==> (parsed <==> s != [] && (s[0] == '0' || s[0] == '1')))
              && (base == BASE_2 ==> forall n: nat :: LeadingDigits(s, n) ==> x[0] as nat == BinaryValue(s[..n]))
  {
    parsed := false;
    if str == null {
      return;
    }
    ghost var s := UpToNul(str[..]);
    assert str[0..] == str[..];
    var len := Strlen(str, 0);
    if len > 0 && x != null {
      assert s[0] == str[..][0] == str[0];
      assert str[1] == if |s| > 1 then s[1] else '\0';
      var effective, start := base, 0;
      if base == BASE_AUTO {
        if str[0] == '0' {
          if str[1] == 'x' || str[1] == 'X' {
            effective, start := BASE_16, 2;
          } else {
            effective, start := BASE_8, 1;
          }
        } else if str[0] == 'b' || str[0] == 'B' {
          effective, start := BASE_2, 1;
        } else {
          effective := BASE_10;
        }
      }
      assert (effective, start) == Detect(base, s);
      UpToNulFrom(str[..], start);
      assert str[..][start..] == str[start..];
      if effective == BASE_2 {
        var value := ScanBase2(str, start);
        if value.Some? {
          x[0] := value.value;
          parsed := true;
        }
      } else {
        var value := sscanf(effective, UpToNul(str[start..]));
        if value.Some? {
          x[0] := value.value;
          parsed := true;
        }
      }
    }
  }

  // ----- Division by powers of two

  lemma AtLeast(a: int, d: nat)
    requires a >= 1
    ensures a * d >= d
  {
  }

  lemma Distributes(a: int, b: int, d: int)
    ensures (a - b) * d == a * d - b * d
  {
  }

  lemma QuotientIs(x: int, d: nat, q: int, r: int)
    requires x == q * d + r && 0 <= r < d
    ensures x / d == q
  {
    var e, s := x / d, x % d;
    assert x == e * d + s;
    Distributes(e, q, d);
    Distributes(q, e, d);
    if e > q {
      AtLeast(e - q, d);
    }
    if q > e {
      AtLeast(q - e, d);
    }
  }

  lemma DivideTwice(x: nat, d: nat)
    requires d > 0
    ensures x / d / 2 == x / (2 * d)
  {
    var q, r := x / d, x % d;
    var h, c := q / 2, q % 2;
    assert x == q * d + r;
    assert q * d == h * (2 * d) + c * d by {
      assert q == 2 * h + c;
    }
    assert 0 <= c * d + r < 2 * d by {
      assert c == 0 || c == 1;
    }
    QuotientIs(x, 2 * d, h, c * d + r);
  }

  lemma {:induction false} DropIsDivide(x: nat, j: nat)
    ensures DropLow(x, j) == x / Pow2(j)
  {
    if j > 0 {
      DropIsDivide(x, j - 1);
      DivideTwice(x, Pow2(j - 1));
    }
  }

  // ----- Round trip

  /** The digits of x read back as its most significant bits. */
  lemma {:induction false} DigitsValue(x: uint32, k: nat)
    requires k <= 32
    ensures IsBinary(BinaryDigits(x, k)) && BinaryValue(BinaryDigits(x, k)) == Prefix(x, k)
  {
    if k == 0 {
      Drop32(x as nat);
    } else {
      DigitsValue(x, k - 1);
      PrefixNext(x, k - 1);
      assert BinaryDigits(x, k)[..k - 1] == BinaryDigits(x, k - 1);
    }
  }

  /** Digit i of the print is '1' if the bit worth 2^(31 - i) is set, and '0' if not. */
  lemma PrintedDigit(x: uint32, i: nat)
    requires i < 32
    ensures BinaryDigits(x, 32)[i] == if (x as nat / Pow2(31 - i)) % 2 == 1 then '1' else '0'
  {
    DropIsDivide(x as nat, 31 - i);
  }

  /**
   Printing in base 2 into a buffer of any size from 2 up and scanning the result, with the base given
   or announced by a 'b', yields x without the bits that did not fit.
   */
  lemma PrintScan(x: uint32, size: nat, sscanf: (Base, string) -> Option<uint32>)
    requires size >= 2
    ensures var k := if size - 1 < 32 then size - 1 else 32;
            && Parse(BASE_2, Printed(x, size), sscanf) == Some(x as nat / Pow2(32 - k))
            && Parse(BASE_AUTO, "b" + Printed(x, size), sscanf) == Some(x as nat / Pow2(32 - k))
  {
    var k := if size - 1 < 32 then size - 1 else 32;
    var s := Printed(x, size);
    DigitsValue(x, k);
    DropIsDivide(x as nat, 32 - k);
    assert s[..k] == s && s[0..] == s;
    ScanLengthIs(s, 32, k);
    assert ("b" + s)[1..] == s;
  }

  /** The round trip gives x back if and only if all digits fitted or x is 0. */
  lemma ExactIff(x: uint32, size: nat, sscanf: (Base, string) -> Option<uint32>)
    requires size >= 2
    ensures Parse(BASE_2, Printed(x, size), sscanf) == Some(x as nat) <==> size >= 33 || x == 0
  {
    PrintScan(x, size, sscanf);
    var k := if size - 1 < 32 then size - 1 else 32;
    DropIsDivide(x as nat, 32 - k);
    DropShrinks(x as nat, 32 - k);
  }

  lemma {:induction false} DropShrinks(x: nat, j: nat)
    ensures DropLow(x, j) <= x
    ensures DropLow(x, j) == x <==> j == 0 || x == 0
  {
    if j > 0 {
      DropShrinks(x, j - 1);
    }
  }
}
