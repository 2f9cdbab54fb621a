/** The Stanford PLY loader, part one: the little-endian words and binary32
    bit patterns of the file body, and the text header that load_ply reads
    with fgets, strcmp and sscanf.  The file is an in-memory byte sequence;
    floats are kept as their binary32 bit patterns. */
module PlyHeader {
  import opened Common

  // ------------------------------------------------------------------
  // Bytes, words and binary32 bit patterns

  const NL: bv8 := 10

  /** read_uint's (and read_float's) assembly of four file bytes, the
      least significant first. */
  function LeWord(b0: bv8, b1: bv8, b2: bv8, b3: bv8): bv32
  {
    (b0 as bv32) | ((b1 as bv32) << 8) | ((b2 as bv32) << 16) | ((b3 as bv32) << 24)
  }

  /** How a little-endian writer lays out a 32-bit word: the partner of LeWord. */
  function LeBytes(w: bv32): (b: seq<bv8>)
    ensures |b| == 4
  {
    [(w & 0xff) as bv8, ((w >> 8) & 0xff) as bv8, ((w >> 16) & 0xff) as bv8, (w >> 24) as bv8]
  }

  lemma LeWordOfBytes(w: bv32)
    ensures var b := LeBytes(w); LeWord(b[0], b[1], b[2], b[3]) == w
  {
  }

  lemma LeBytesOfWord(b0: bv8, b1: bv8, b2: bv8, b3: bv8)
    ensures LeBytes(LeWord(b0, b1, b2, b3)) == [b0, b1, b2, b3]
  {
  }

  /** The word stored at byte offset i of the file. */
  function WordAt(data: seq<bv8>, i: nat): bv32
    requires i + 4 <= |data|
  {
    LeWord(data[i], data[i + 1], data[i + 2], data[i + 3])
  }

  /** The biased exponent field of a binary32 bit pattern: bits 23 to 30
      (IEEE 754-2008, section 3.4). */
  function ExponentField(w: bv32): bv32
  {
    (w >> 23) & 0xff
  }

  /** isfinite() on the float whose bits are w: an all-ones exponent field
      encodes an infinity or a NaN. */
  predicate IsFinite(w: bv32)
  {
    ExponentField(w) != 0xff
  }

  /** The same test on the magnitude: finite exactly when the bits without
      the sign lie below those of +infinity. */
  lemma FiniteBelowInfinity(w: bv32)
    ensures IsFinite(w) <==> (w & 0x7fff_ffff) < 0x7f80_0000
  {
  }

  // ------------------------------------------------------------------
  // fgets, strcmp and sscanf on header lines

  /** Where the line that fgets(buf, 256, f) reads from offset pos of the
      file ends: just past the first newline, 255 bytes on, or at the end
      of the file, whichever comes first (LineEndSpec). */
  function LineEnd(data: seq<bv8>, pos: nat): (e: nat)
    requires pos < |data|
    ensures pos < e <= |data| && e <= pos + 255
  {
    LineEndFrom(data, pos, pos)
  }

  function LineEndFrom(data: seq<bv8>, pos: nat, i: nat): (e: nat)
    requires pos <= i < |data| && i < pos + 255
    ensures i < e <= |data| && e <= pos + 255
    decreases |data| - i
  {
    if data[i] == NL || i + 1 == |data| || i + 1 == pos + 255 then i + 1
    else LineEndFrom(data, pos, i + 1)
  }

  lemma {:induction false} LineEndFromSpec(data: seq<bv8>, pos: nat, i: nat)
    requires pos <= i < |data| && i < pos + 255
    ensures var e := LineEndFrom(data, pos, i);
      && (e == |data| || e == pos + 255 || data[e - 1] == NL)
      && forall k | i <= k < e - 1 :: data[k] != NL
    decreases |data| - i
  {
    if !(data[i] == NL || i + 1 == |data| || i + 1 == pos + 255) {
      LineEndFromSpec(data, pos, i + 1);
    }
  }

  /** fgets stops after the first newline, after 255 bytes, or at the end
      of the file, whichever comes first. */
  lemma LineEndSpec(data: seq<bv8>, pos: nat)
    requires pos < |data|
    ensures var e := LineEnd(data, pos);
      && (e == |data| || e == pos + 255 || data[e - 1] == NL)
      && forall k | pos <= k < e - 1 :: data[k] != NL
  {
    LineEndFromSpec(data, pos, pos);
  }

  /** The C string in a buffer: the bytes before the first NUL
      (CStringSpec). */
  function CString(s: seq<bv8>): seq<bv8>
  {
    s[..NulIndex(s, 0)]
  }

  function NulIndex(s: seq<bv8>, i: nat): (j: nat)
    requires i <= |s|
    ensures i <= j <= |s|
    decreases |s| - i
  {
    if i == |s| || s[i] == 0 then i else NulIndex(s, i + 1)
  }

  lemma {:induction false} NulIndexSpec(s: seq<bv8>, i: nat)
    requires i <= |s|
    ensures var j := NulIndex(s, i);
      && (forall k | i <= k < j :: s[k] != 0)
      && (j < |s| ==> s[j] == 0)
    decreases |s| - i
  {
    if !(i == |s| || s[i] == 0) {
      NulIndexSpec(s, i + 1);
    }
  }

  /** The C string is a prefix of the buffer with no NUL in it, and it stops
      at a NUL unless it takes the whole buffer. */
  lemma CStringSpec(s: seq<bv8>)
    ensures var c := CString(s);
      && |c| <= |s| && c == s[..|c|]
      && (forall k | 0 <= k < |c| :: c[k] != 0)
      && (|c| < |s| ==> s[|c|] == 0)
  {
    NulIndexSpec(s, 0);
  }

  /** What one scanf directive did: it stopped before position `at` of the
      input, or it failed on a differing byte, or the input ran out. */
  datatype Step = Next(at: nat) | Mismatch | EndOfInput

  /** The outcome of sscanf(s, "... %d", &n): n assigned (return value 1), a
      matching failure before any conversion (0), or an input failure before
      any conversion (EOF). */
  datatype Scan = Assigned(n: int) | MatchingFailure | InputFailure

  /** sscanf's return value. */
  function ScanReturn(r: Scan): (v: int)
    ensures v == 1 <==> r.Assigned?
    ensures v == -1 <==> r == InputFailure
  {
    match r
    case Assigned(_) => 1
    case MatchingFailure => 0
    case InputFailure => -1
  }

  /** isspace() in the C locale. */
  predicate IsSpace(c: bv8)
  {
    c == 32 || 9 <= c <= 13
  }

  predicate IsDigit(c: bv8)
  {
    48 <= c <= 57
  }

  /** A white-space directive: skips any run of white space, possibly empty
      (SkipSpaceSpec). */
  function SkipSpace(s: seq<bv8>, i: nat): (j: nat)
    requires i <= |s|
    ensures i <= j <= |s|
    decreases |s| - i
  {
    if i == |s| || !IsSpace(s[i]) then i else SkipSpace(s, i + 1)
  }

  lemma {:induction false} SkipSpaceSpec(s: seq<bv8>, i: nat)
    requires i <= |s|
    ensures var j := SkipSpace(s, i);
      && (forall k | i <= k < j :: IsSpace(s[k]))
      && (j == |s| || !IsSpace(s[j]))
    decreases |s| - i
  {
    if i < |s| && IsSpace(s[i]) {
      SkipSpaceSpec(s, i + 1);
    }
  }

  /** The run of decimal digits starting at i (DigitRunSpec). */
  function DigitRun(s: seq<bv8>, i: nat): (j: nat)
    requires i <= |s|
    ensures i <= j <= |s|
    decreases |s| - i
  {
    if i == |s| || !IsDigit(s[i]) then i else DigitRun(s, i + 1)
  }

  lemma {:induction false} DigitRunSpec(s: seq<bv8>, i: nat)
    requires i <= |s|
    ensures var j := DigitRun(s, i);
      && (forall k | i <= k < j :: IsDigit(s[k]))
      && (j == |s| || !IsDigit(s[j]))
    decreases |s| - i
  {
    if i < |s| && IsDigit(s[i]) {
      DigitRunSpec(s, i + 1);
    }
  }

  /** Ordinary characters of a format: each must match the next input byte
      (MatchLiteralSpec). */
  function MatchLiteral(s: seq<bv8>, i: nat, lit: seq<bv8>): (r: Step)
    requires i <= |s|
    ensures r.Next? ==> r.at <= |s|
    decreases |lit|
  {
    if |lit| == 0 then Next(i)
    else if i == |s| then EndOfInput
    else if s[i] != lit[0] then Mismatch
    else MatchLiteral(s, i + 1, lit[1..])
  }

  /** A literal matches exactly when the input holds it at i; the input
      runs out first exactly when what is left is a proper prefix of it. */
  lemma {:induction false} MatchLiteralSpec(s: seq<bv8>, i: nat, lit: seq<bv8>)
    requires i <= |s|
    ensures var r := MatchLiteral(s, i, lit);
      && (r.Next? <==> i + |lit| <= |s| && s[i..i + |lit|] == lit)
      && (r.Next? ==> r.at == i + |lit|)
      && (r == EndOfInput <==> |s| - i < |lit| && s[i..] == lit[..|s| - i])
    decreases |lit|
  {
    if |lit| > 0 && i < |s| {
      if s[i] == lit[0] {
        MatchLiteralSpec(s, i + 1, lit[1..]);
        assert s[i..] == [s[i]] + s[i + 1..];
        assert lit == [lit[0]] + lit[1..];
        if i + |lit| <= |s| {
          assert s[i..i + |lit|] == [s[i]] + s[i + 1..i + |lit|];
        } else {
          assert lit[..|s| - i] == [lit[0]] + lit[1..][..|s| - i - 1];
        }
      } else {
        assert s[i..][0] != lit[0];
        if i + |lit| <= |s| {
          assert s[i..i + |lit|][0] != lit[0];
        }
      }
    }
  }

  /** The value of a run of decimal digits, most significant first. */
  function DecimalValue(ds: seq<bv8>): (v: nat)
    requires forall k | 0 <= k < |ds| :: IsDigit(ds[k])
  {
    if |ds| == 0 then 0
    else 10 * DecimalValue(ds[..|ds| - 1]) + DigitValue(ds[|ds| - 1])
  }

  function DigitValue(c: bv8): (d: nat)
    requires IsDigit(c)
    ensures d <= 9 && d as bv8 == c - 48
  {
    (c - 48) as int
  }

  /** The %d conversion: skip white space; at the end of the input that is an
      input failure; otherwise an optional sign and at least one digit. */
  function ScanInt(s: seq<bv8>, i: nat): (r: Scan)
    requires i <= |s|
  {
    var j := SkipSpace(s, i);
    if j == |s| then InputFailure
    else
      var k := if s[j] == 43 || s[j] == 45 then j + 1 else j;
      var e := DigitRun(s, k);
      if e == k then MatchingFailure
      else
        DigitRunSpec(s, k);
        var v: int := DecimalValue(s[k..e]);
        Assigned(if s[j] == 45 then -v else v)
  }

  /** A scanf format, directive by directive. */
  datatype Directive = Literal(bytes: seq<bv8>) | WhiteSpace | IntConversion

  /** sscanf on a format whose only conversion is its last directive. */
  function ScanFormat(s: seq<bv8>, i: nat, fmt: seq<Directive>): (r: Scan)
    requires i <= |s|
    decreases |fmt|
  {
    if |fmt| == 0 then MatchingFailure
    else match fmt[0]
      case Literal(lit) =>
        (match MatchLiteral(s, i, lit)
         case Next(j) => ScanFormat(s, j, fmt[1..])
         case Mismatch => MatchingFailure
         case EndOfInput => InputFailure)
      case WhiteSpace => ScanFormat(s, SkipSpace(s, i), fmt[1..])
      case IntConversion => ScanInt(s, i)
  }

  /** "element", "vertex" and "face" in ASCII. */
  const ELEMENT: seq<bv8> := [101, 108, 101, 109, 101, 110, 116]
  const VERTEX: seq<bv8> := [118, 101, 114, 116, 101, 120]
  const FACE: seq<bv8> := [102, 97, 99, 101]

  /** The format "element <kind> %d". */
  function ElementFormat(kind: seq<bv8>): seq<Directive>
  {
    [Literal(ELEMENT), WhiteSpace, Literal(kind), WhiteSpace, IntConversion]
  }

  /** sscanf(s, "element <kind> %d", &n). */
  function ScanElement(s: seq<bv8>, kind: seq<bv8>): Scan
  {
    ScanFormat(s, 0, ElementFormat(kind))
  }

  lemma ScanLiteralStep(s: seq<bv8>, i: nat, lit: seq<bv8>, rest: seq<Directive>, j: nat)
    requires i <= |s| && MatchLiteral(s, i, lit) == Next(j)
    ensures ScanFormat(s, i, [Literal(lit)] + rest) == ScanFormat(s, j, rest)
  {
    assert ([Literal(lit)] + rest)[1..] == rest;
  }

  lemma ScanSpaceStep(s: seq<bv8>, i: nat, rest: seq<Directive>)
    requires i <= |s|
    ensures ScanFormat(s, i, [WhiteSpace] + rest) == ScanFormat(s, SkipSpace(s, i), rest)
  {
    assert ([WhiteSpace] + rest)[1..] == rest;
  }

  /** "element <kind>" at the start of s matches the format's first three
      directives. */
  lemma ElementPrefixMatches(s: seq<bv8>, kind: seq<bv8>)
    requires |kind| > 0 && !IsSpace(kind[0])
    requires |s| >= 8 + |kind| && s[..8 + |kind|] == ELEMENT + [32] + kind
    ensures MatchLiteral(s, 0, ELEMENT) == Next(7)
    ensures SkipSpace(s, 7) == 8
    ensures MatchLiteral(s, 8, kind) == Next(8 + |kind|)
  {
    var e := 8 + |kind|;
    assert s[..7] == (ELEMENT + [32] + kind)[..7] == ELEMENT;
    assert s[7] == (ELEMENT + [32] + kind)[7] == 32;
    assert s[8] == (ELEMENT + [32] + kind)[8] == kind[0];
    assert s[8..e] == (ELEMENT + [32] + kind)[8..] == kind;
    MatchLiteralSpec(s, 0, ELEMENT);
    SkipSpaceSpec(s, 7);
    MatchLiteralSpec(s, 8, kind);
  }

  /** Once "element <kind>" has matched, sscanf's outcome is that of %d
      after the white space that follows. */
  lemma ScanElementPrefix(s: seq<bv8>, kind: seq<bv8>)
    requires |kind| > 0 && !IsSpace(kind[0])
    requires |s| >= 8 + |kind| && s[..8 + |kind|] == ELEMENT + [32] + kind
    ensures ScanElement(s, kind) == ScanInt(s, SkipSpace(s, 8 + |kind|))
  {
    var e := 8 + |kind|;
    var f3 := [WhiteSpace] + [IntConversion];
    var f2 := [Literal(kind)] + f3;
    var f1 := [WhiteSpace] + f2;
    assert ElementFormat(kind) == [Literal(ELEMENT)] + f1;
    ElementPrefixMatches(s, kind);
    ScanLiteralStep(s, 0, ELEMENT, f1, 7);
    ScanSpaceStep(s, 7, f2);
    ScanLiteralStep(s, 8, kind, f3, e);
    ScanSpaceStep(s, e, [IntConversion]);
  }

  /** A line naming another element fails on the kind's first byte. */
  lemma ScanElementOtherKind(s: seq<bv8>, kind: seq<bv8>)
    requires |s| > 8 && s[..8] == ELEMENT + [32] && !IsSpace(s[8])
    requires |kind| > 0 && s[8] != kind[0]
    ensures ScanElement(s, kind) == MatchingFailure
  {
    var fmt := ElementFormat(kind);
    assert s[..7] == (ELEMENT + [32])[..7] == ELEMENT;
    assert s[7] == (ELEMENT + [32])[7] == 32;
    MatchLiteralSpec(s, 0, ELEMENT);
    SkipSpaceSpec(s, 7);
    assert SkipSpace(s, 7) == 8;
    assert ScanFormat(s, 0, fmt) == ScanFormat(s, 7, fmt[1..]);
    assert ScanFormat(s, 7, fmt[1..]) == ScanFormat(s, 8, fmt[2..]);
  }

  /** %d reads a run of digits, up to the first non-digit, as its value. */
  lemma ScanIntDigits(s: seq<bv8>, i: nat, ds: seq<bv8>)
    requires |ds| > 0 && forall k | 0 <= k < |ds| :: IsDigit(ds[k])
    requires i + |ds| < |s| && s[i..i + |ds|] == ds
    requires !IsDigit(s[i + |ds|])
    ensures ScanInt(s, i) == Assigned(DecimalValue(ds))
  {
    assert s[i] == ds[0];
    SkipSpaceSpec(s, i);
    assert SkipSpace(s, i) == i;
    forall k | i <= k < i + |ds| ensures IsDigit(s[k]) {
      assert s[k] == ds[k - i];
    }
    DigitRunSpec(s, i);
    assert DigitRun(s, i) == i + |ds|;
  }

  /** The decimal digits of n, most significant first, as printf's %d
      writes a non-negative number: the partner of DecimalValue. */
  function Decimal(n: nat): (ds: seq<bv8>)
    ensures |ds| > 0
  {
    if n < 10 then [DigitChar(n)] else Decimal(n / 10) + [DigitChar(n % 10)]
  }

  lemma {:induction false} DecimalSpec(n: nat)
    ensures forall k | 0 <= k < |Decimal(n)| :: IsDigit(Decimal(n)[k])
    ensures DecimalValue(Decimal(n)) == n
  {
    var ds := Decimal(n);
    if n >= 10 {
      DecimalSpec(n / 10);
      assert ds[..|ds| - 1] == Decimal(n / 10);
    }
  }

  function DigitChar(d: nat): (c: bv8)
    requires d <= 9
    ensures IsDigit(c) && DigitValue(c) == d
  {
    (d as bv8) + 48
  }

  /** The header line a PLY writer emits for an element with n entries. */
  function ElementLine(kind: seq<bv8>, n: nat): seq<bv8>
  {
    ELEMENT + [32] + kind + [32] + Decimal(n) + [NL]
  }

  /** sscanf(s, "element <kind> %d") on a line that names the element and
      then ends without a count: the input runs out before the conversion,
      which is an input failure, and sscanf returns EOF. */
  lemma ScanElementWithoutCount(kind: seq<bv8>, blank: seq<bv8>)
    requires |kind| > 0 && !IsSpace(kind[0])
    requires forall k | 0 <= k < |blank| :: IsSpace(blank[k])
    ensures ScanElement(ELEMENT + [32] + kind + blank, kind) == InputFailure
  {
    var s := ELEMENT + [32] + kind + blank;
    assert s[..8 + |kind|] == ELEMENT + [32] + kind;
    ScanElementPrefix(s, kind);
    var e := 8 + |kind|;
    forall k | e <= k < |s| ensures IsSpace(s[k]) {
      assert s[k] == blank[k - e];
    }
    SkipSpaceSpec(s, e);
    assert SkipSpace(s, e) == |s|;
    SkipSpaceSpec(s, |s|);
  }

  /** A line "element <kind> <n>\n" as a PLY writer emits it scans to n. */
  lemma ScanElementCount(kind: seq<bv8>, n: nat)
    requires |kind| > 0 && !IsSpace(kind[0])
    ensures ScanElement(ElementLine(kind, n), kind) == Assigned(n)
  {
    var ds := Decimal(n);
    DecimalSpec(n);
    var s := ElementLine(kind, n);
    var e := 8 + |kind|;
    assert s[..e] == ELEMENT + [32] + kind;
    ScanElementPrefix(s, kind);
    assert s[e] == 32 && s[e + 1] == ds[0];
    SkipSpaceSpec(s, e);
    assert SkipSpace(s, e) == e + 1;
    assert s[e + 1..e + 1 + |ds|] == ds;
    assert s[e + 1 + |ds|] == NL;
    ScanIntDigits(s, e + 1, ds);
  }

  // ------------------------------------------------------------------
  // The header

  /** "ply\n" and "end_header\n" in ASCII. */
  const PLY_MAGIC: seq<bv8> := [112, 108, 121, 10]
  const END_HEADER: seq<bv8> := [101, 110, 100, 95, 104, 101, 97, 100, 101, 114, 10]

  /** The element counts as the header loop has them so far; -1 is "not
      seen yet". */
  datatype Counts = Counts(vertices: int, faces: int)

  /** The range test on a scanned count (lines 111 and 117).  It asks for a
      number both at most 0 and at least 1e8, so no count is ever rejected. */
  predicate CountRejected(n: int)
  {
    n <= 0 && n >= 100000000
  }

  lemma CountNeverRejected(n: int)
    ensures !CountRejected(n)
  {
  }

  /** One header line that is not "end_header\n", with sscanf's result
      compared against 1 (HeaderLineChanges). */
  function HeaderLine(line: seq<bv8>, c: Counts): Option<Counts>
  {
    var v := ScanElement(CString(line), VERTEX);
    if v.Assigned? then
      (if CountRejected(v.n) then None else Some(c.(vertices := v.n)))
    else
      var f := ScanElement(CString(line), FACE);
      if f.Assigned? then
        (if CountRejected(f.n) then None else Some(c.(faces := f.n)))
      else Some(c)
  }

  /** No header line fails, and a count changes only to a value that %d
      assigned from that line. */
  lemma HeaderLineChanges(line: seq<bv8>, c: Counts)
    ensures HeaderLine(line, c).Some?
    ensures var c' := HeaderLine(line, c).value;
      && (c'.vertices == c.vertices || ScanElement(CString(line), VERTEX) == Assigned(c'.vertices))
      && (c'.faces == c.faces || ScanElement(CString(line), FACE) == Assigned(c'.faces))
  {
  }

  /** The same line as the loop writes it: sscanf's return value is used as
      a truth value, so EOF (-1) counts as a match, and then n still holds
      whatever it held before the call, given here as `unset`. */
  function HeaderLineAsWritten(line: seq<bv8>, c: Counts, unset: int): Option<Counts>
  {
    var v := ScanElement(CString(line), VERTEX);
    if ScanReturn(v) != 0 then
      var n := if v.Assigned? then v.n else unset;
      (if CountRejected(n) then None else Some(c.(vertices := n)))
    else
      var f := ScanElement(CString(line), FACE);
      if ScanReturn(f) != 0 then
        var n := if f.Assigned? then f.n else unset;
        (if CountRejected(n) then None else Some(c.(faces := n)))
      else Some(c)
  }

  /** A bare "element vertex\n" line: as written, the vertex count takes the
      stale value of n; compared against 1, the line changes nothing. */
  lemma HeaderLineWithoutCount(c: Counts, unset: int)
    ensures HeaderLineAsWritten(ELEMENT + [32] + VERTEX + [NL], c, unset) == Some(c.(vertices := unset))
    ensures HeaderLine(ELEMENT + [32] + VERTEX + [NL], c) == Some(c)
  {
    var line := ELEMENT + [32] + VERTEX + [NL];
    forall k | 0 <= k < |line| ensures line[k] != 0 {
      if k < 7 { assert line[k] == ELEMENT[k]; }
      else if 8 <= k < 14 { assert line[k] == VERTEX[k - 8]; }
    }
    NoNulString(line);
    ScanElementWithoutCount(VERTEX, [NL]);
    assert line[..8] == ELEMENT + [32];
    assert line[8] == VERTEX[0];
    ScanElementOtherKind(line, FACE);
  }

  lemma NoNulString(s: seq<bv8>)
    requires forall k | 0 <= k < |s| :: s[k] != 0
    ensures CString(s) == s
  {
    CStringSpec(s);
  }

  /** What the header loop does with the line at pos. */
  datatype HeaderStep = Fail | Done(end: nat) | Continue(next: nat, counts: Counts)

  /** One turn of the header loop: fgets fails at the end of the file; the
      line "end_header\n" ends the loop; any other line is a HeaderLine step. */
  function HeaderStepAt(data: seq<bv8>, pos: nat, c: Counts): (r: HeaderStep)
    requires pos <= |data|
    ensures r.Continue? ==> pos < r.next <= |data|
  {
    if pos == |data| then Fail
    else
      var e := LineEnd(data, pos);
      var line := data[pos..e];
      if CString(line) == END_HEADER then Done(e)
      else
        match HeaderLine(line, c)
        case None => Fail
        case Some(c') => Continue(e, c')
  }

  /** The header loop from pos on: the counts and the offset just past
      "end_header\n", or None when the loop exits through err. */
  function HeaderFrom(data: seq<bv8>, pos: nat, c: Counts): (r: Option<(Counts, nat)>)
    requires pos <= |data|
    decreases |data| - pos
  {
    match HeaderStepAt(data, pos, c)
    case Fail => None
    case Done(e) => Some((c, e))
    case Continue(p, c') => HeaderFrom(data, p, c')
  }

  /** A step that ends the loop stands just past "end_header\n". */
  lemma HeaderStepDone(data: seq<bv8>, pos: nat, c: Counts)
    requires pos <= |data| && HeaderStepAt(data, pos, c).Done?
    ensures var e := HeaderStepAt(data, pos, c).end;
      pos + 11 == e <= |data| && data[pos..e] == END_HEADER
  {
    EndHeaderAt(data, pos);
  }

  /** The header loop only ever stops just past an "end_header\n" line. */
  lemma {:induction false} HeaderFromSpec(data: seq<bv8>, pos: nat, c: Counts)
    requires pos <= |data|
    ensures var r := HeaderFrom(data, pos, c);
      r.Some? ==> pos + 11 <= r.value.1 <= |data| && data[r.value.1 - 11..r.value.1] == END_HEADER
    decreases |data| - pos
  {
    match HeaderStepAt(data, pos, c)
    case Fail =>
    case Done(e) => HeaderStepDone(data, pos, c);
    case Continue(p, c') => HeaderFromSpec(data, p, c');
  }

  lemma EndHeaderAt(data: seq<bv8>, pos: nat)
    requires pos < |data|
    requires CString(data[pos..LineEnd(data, pos)]) == END_HEADER
    ensures LineEnd(data, pos) == pos + 11 && data[pos..pos + 11] == END_HEADER
  {
    CStringLine(data, pos, END_HEADER);
  }

  /** An fgets line whose C string is a newline-terminated text is exactly
      that text. */
  lemma CStringLine(data: seq<bv8>, pos: nat, text: seq<bv8>)
    requires pos < |data| && |text| > 0 && text[|text| - 1] == NL
    requires CString(data[pos..LineEnd(data, pos)]) == text
    ensures LineEnd(data, pos) == pos + |text| && data[pos..pos + |text|] == text
  {
    var e := LineEnd(data, pos);
    var line := data[pos..e];
    LineEndSpec(data, pos);
    CStringSpec(line);
    assert text == line[..|text|];
    assert data[pos + |text| - 1] == line[|text| - 1] == NL;
  }

  /** load_ply's header: the first line must be exactly "ply\n", the loop
      runs to "end_header\n", and both counts must have been seen.  The
      result is the counts and the offset of the first body byte. */
  function ParseHeader(data: seq<bv8>): Option<(Counts, nat)>
  {
    if |data| == 0 then None
    else
      var n := LineEnd(data, 0);
      if CString(data[..n]) != PLY_MAGIC then None
      else
        match HeaderFrom(data, n, Counts(-1, -1))
        case None => None
        case Some((c, body)) =>
          if c.vertices < 0 || c.faces < 0 then None else Some((c, body))
  }

  /** An accepted header starts with "ply\n", ends with "end_header\n" and
      has set both counts to non-negative values. */
  lemma ParseHeaderSpec(data: seq<bv8>)
    ensures var r := ParseHeader(data);
      r.Some? ==>
        && |data| >= 4 && data[..4] == PLY_MAGIC
        && r.value.0.vertices >= 0 && r.value.0.faces >= 0
        && 15 <= r.value.1 <= |data| && data[r.value.1 - 11..r.value.1] == END_HEADER
  {
    if ParseHeader(data).Some? {
      MagicLine(data);
      HeaderFromSpec(data, 4, Counts(-1, -1));
    }
  }

  lemma MagicLine(data: seq<bv8>)
    requires |data| > 0 && CString(data[..LineEnd(data, 0)]) == PLY_MAGIC
    ensures LineEnd(data, 0) == 4 && data[..4] == PLY_MAGIC
  {
    assert data[0..LineEnd(data, 0)] == data[..LineEnd(data, 0)];
    CStringLine(data, 0, PLY_MAGIC);
    assert data[0..4] == data[..4];
  }

  // ------------------------------------------------------------------
  // The header a PLY writer emits parses back to its counts

  /** "ply\n", one "element" line per kind, "end_header\n". */
  function HeaderText(nv: nat, nf: nat): seq<bv8>
  {
    PLY_MAGIC + ElementLine(VERTEX, nv) + ElementLine(FACE, nf) + END_HEADER
  }

  /** The bytes of a header line that matter to fgets and strcmp. */
  ghost predicate PlainLine(line: seq<bv8>)
  {
    0 < |line| <= 255 && line[|line| - 1] == NL
    && (forall i | 0 <= i < |line| - 1 :: line[i] != NL)
    && (forall i | 0 <= i < |line| :: line[i] != 0)
  }

  /** The line at pos is what fgets returns there. */
  lemma LineAt(data: seq<bv8>, pos: nat, line: seq<bv8>)
    requires PlainLine(line)
    requires pos + |line| <= |data| && data[pos..pos + |line|] == line
    ensures LineEnd(data, pos) == pos + |line|
  {
    var e := LineEnd(data, pos);
    LineEndSpec(data, pos);
    var last := pos + |line| - 1;
    assert data[last] == line[|line| - 1] == NL;
  }

  lemma HeaderStepContinues(data: seq<bv8>, pos: nat, c: Counts, c': Counts)
    requires pos < |data|
    requires CString(data[pos..LineEnd(data, pos)]) != END_HEADER
    requires HeaderLine(data[pos..LineEnd(data, pos)], c) == Some(c')
    ensures HeaderStepAt(data, pos, c) == Continue(LineEnd(data, pos), c')
  {
  }

  lemma HeaderStepEnds(data: seq<bv8>, pos: nat, c: Counts)
    requires pos < |data|
    requires CString(data[pos..LineEnd(data, pos)]) == END_HEADER
    ensures HeaderStepAt(data, pos, c) == Done(LineEnd(data, pos))
  {
  }

  lemma HeaderFromDone(data: seq<bv8>, pos: nat, c: Counts, e: nat)
    requires pos <= |data| && HeaderStepAt(data, pos, c) == Done(e)
    ensures HeaderFrom(data, pos, c) == Some((c, e))
  {
  }

  /** "end_header\n" at pos ends the header loop just past it. */
  lemma HeaderFromEnd(data: seq<bv8>, pos: nat, c: Counts, e: nat)
    requires e == pos + 11 <= |data| && data[pos..e] == END_HEADER
    ensures HeaderFrom(data, pos, c) == Some((c, e))
  {
    EndHeaderPlain();
    LineAt(data, pos, END_HEADER);
    HeaderStepEnds(data, pos, c);
    HeaderFromDone(data, pos, c, e);
  }

  function Pow10(k: nat): nat
  {
    if k == 0 then 1 else 10 * Pow10(k - 1)
  }

  lemma {:induction false} DecimalLength(n: nat, k: nat)
    requires 1 <= k && n < Pow10(k)
    ensures |Decimal(n)| <= k
  {
    assert Pow10(1) == 10;
    if n >= 10 {
      DecimalLength(n / 10, k - 1);
    }
  }

  /** An element line for a count in int range is a plain fgets line that
      is not "end_header\n". */
  lemma ElementLinePlain(kind: seq<bv8>, n: nat)
    requires kind == VERTEX || kind == FACE
    requires n < 0x8000_0000
    ensures PlainLine(ElementLine(kind, n))
    ensures CString(ElementLine(kind, n)) == ElementLine(kind, n) != END_HEADER
  {
    var line := ElementLine(kind, n);
    assert Pow10(10) == 10000000000;
    DecimalLength(n, 10);
    ElementLineBytes(kind, n);
    NoNulString(line);
    assert line[1] == 108 != END_HEADER[1];
  }

  /** An element line holds no NUL, and no newline before its last byte. */
  lemma ElementLineBytes(kind: seq<bv8>, n: nat)
    requires kind == VERTEX || kind == FACE
    ensures var line := ElementLine(kind, n);
      forall i | 0 <= i < |line| :: line[i] != 0 && (i < |line| - 1 ==> line[i] != NL)
  {
    var line := ElementLine(kind, n);
    var ds := Decimal(n);
    DecimalSpec(n);
    forall i | 0 <= i < |line| ensures line[i] != 0 && (i < |line| - 1 ==> line[i] != NL) {
      if i < 7 { assert line[i] == ELEMENT[i]; }
      else if i == 7 { }
      else if i < 8 + |kind| { assert line[i] == kind[i - 8]; }
      else if i == 8 + |kind| { }
      else if i < |line| - 1 { assert line[i] == ds[i - 9 - |kind|]; }
    }
  }

  lemma ElementLineHead(kind: seq<bv8>, n: nat)
    requires |kind| > 0
    ensures |ElementLine(kind, n)| > 8
    ensures ElementLine(kind, n)[..8] == ELEMENT + [32]
    ensures ElementLine(kind, n)[8] == kind[0]
  {
    var head := ELEMENT + [32];
    var tail := kind + [32] + Decimal(n) + [NL];
    assert ElementLine(kind, n) == head + tail;
    assert (head + tail)[..8] == head;
    assert (head + tail)[8] == tail[0] == kind[0];
  }

  /** An element line sets its own count and leaves the other alone. */
  lemma ElementLineStep(kind: seq<bv8>, n: nat, c: Counts)
    requires kind == VERTEX || kind == FACE
    requires n < 0x8000_0000
    ensures HeaderLine(ElementLine(kind, n), c)
         == Some(if kind == VERTEX then c.(vertices := n) else c.(faces := n))
  {
    var line := ElementLine(kind, n);
    ElementLinePlain(kind, n);
    ScanElementCount(kind, n);
    if kind == FACE {
      ElementLineHead(kind, n);
      ScanElementOtherKind(line, VERTEX);
    }
  }

  lemma HeaderFromContinues(data: seq<bv8>, pos: nat, c: Counts, c': Counts, next: nat)
    requires pos < |data| && next == LineEnd(data, pos)
    requires CString(data[pos..LineEnd(data, pos)]) != END_HEADER
    requires HeaderLine(data[pos..LineEnd(data, pos)], c) == Some(c')
    ensures HeaderFrom(data, pos, c) == HeaderFrom(data, next, c')
  {
    HeaderStepContinues(data, pos, c, c');
  }

  /** What the header loop sees at an element line. */
  lemma ElementLineAt(data: seq<bv8>, pos: nat, c: Counts, kind: seq<bv8>, n: nat, c': Counts, next: nat)
    requires kind == VERTEX || kind == FACE
    requires n < 0x8000_0000
    requires c' == if kind == VERTEX then c.(vertices := n) else c.(faces := n)
    requires next == pos + |ElementLine(kind, n)| <= |data|
    requires data[pos..next] == ElementLine(kind, n)
    ensures pos < |data| && LineEnd(data, pos) == next
    ensures CString(data[pos..LineEnd(data, pos)]) != END_HEADER
    ensures HeaderLine(data[pos..LineEnd(data, pos)], c) == Some(c')
  {
    ElementLinePlain(kind, n);
    ElementLineStep(kind, n, c);
    LineAt(data, pos, ElementLine(kind, n));
  }

  /** One element line in the header loop sets its count. */
  lemma HeaderFromElement(data: seq<bv8>, pos: nat, c: Counts, kind: seq<bv8>, n: nat, c': Counts, next: nat)
    requires kind == VERTEX || kind == FACE
    requires n < 0x8000_0000
    requires c' == if kind == VERTEX then c.(vertices := n) else c.(faces := n)
    requires next == pos + |ElementLine(kind, n)| <= |data|
    requires data[pos..next] == ElementLine(kind, n)
    ensures HeaderFrom(data, pos, c) == HeaderFrom(data, next, c')
  {
    ElementLineAt(data, pos, c, kind, n, c', next);
    HeaderFromContinues(data, pos, c, c', next);
  }

  lemma Slices(a: seq<bv8>, b: seq<bv8>, c: seq<bv8>, d: seq<bv8>, e: seq<bv8>)
    ensures var x := a + b + c + d + e;
      && x[..|a|] == a
      && x[|a|..|a| + |b|] == b
      && x[|a| + |b|..|a| + |b| + |c|] == c
      && x[|a| + |b| + |c|..|a| + |b| + |c| + |d|] == d
  {
  }

  lemma MagicPlain()
    ensures PlainLine(PLY_MAGIC) && CString(PLY_MAGIC) == PLY_MAGIC
  {
    NoNulString(PLY_MAGIC);
  }

  lemma EndHeaderPlain()
    ensures PlainLine(END_HEADER) && CString(END_HEADER) == END_HEADER
  {
    forall k | 0 <= k < 11 ensures END_HEADER[k] != 0 && (k < 10 ==> END_HEADER[k] != NL) {
    }
    NoNulString(END_HEADER);
  }

  /** fgets returns "ply\n" as the first line of a file that starts with it. */
  lemma MagicAt(data: seq<bv8>)
    requires |data| >= 4 && data[..4] == PLY_MAGIC
    ensures LineEnd(data, 0) == 4 && CString(data[..LineEnd(data, 0)]) == PLY_MAGIC
  {
    MagicPlain();
    assert data[0..4] == data[..4];
    LineAt(data, 0, PLY_MAGIC);
  }

  lemma ParseHeaderAccepts(data: seq<bv8>, c: Counts, e: nat)
    requires |data| > 0 && CString(data[..LineEnd(data, 0)]) == PLY_MAGIC
    requires HeaderFrom(data, LineEnd(data, 0), Counts(-1, -1)) == Some((c, e))
    requires c.vertices >= 0 && c.faces >= 0
    ensures ParseHeader(data) == Some((c, e))
  {
  }

  /** A file that starts with the line "ply\n" and whose header loop ends
      with both counts set is accepted with those counts. */
  lemma ParseHeaderMagic(data: seq<bv8>, c: Counts, e: nat)
    requires |data| >= 4 && data[..4] == PLY_MAGIC
    requires HeaderFrom(data, 4, Counts(-1, -1)) == Some((c, e))
    requires c.vertices >= 0 && c.faces >= 0
    ensures ParseHeader(data) == Some((c, e))
  {
    MagicAt(data);
    ParseHeaderAccepts(data, c, e);
  }

  /** The header as a PLY writer emits it, followed by any body, parses to
      its two counts and ends exactly where the body begins. */
  lemma ParseHeaderText(nv: nat, nf: nat, body: seq<bv8>)
    requires nv < 0x8000_0000 && nf < 0x8000_0000
    ensures ParseHeader(HeaderText(nv, nf) + body) == Some((Counts(nv, nf), |HeaderText(nv, nf)|))
  {
    var lv := ElementLine(VERTEX, nv);
    var lf := ElementLine(FACE, nf);
    var e := |HeaderText(nv, nf)|;
    assert e == 4 + |lv| + |lf| + 11;
    Slices(PLY_MAGIC, lv, lf, END_HEADER, body);
    ParseHeaderLines(HeaderText(nv, nf) + body, nv, nf, 4 + |lv|, 4 + |lv| + |lf|, e);
  }

  lemma ParseHeaderLines(data: seq<bv8>, nv: nat, nf: nat, p2: nat, p3: nat, e: nat)
    requires nv < 0x8000_0000 && nf < 0x8000_0000
    requires p2 == 4 + |ElementLine(VERTEX, nv)| && p3 == p2 + |ElementLine(FACE, nf)|
    requires e == p3 + 11 <= |data|
    requires data[..4] == PLY_MAGIC
    requires data[4..p2] == ElementLine(VERTEX, nv)
    requires data[p2..p3] == ElementLine(FACE, nf)
    requires data[p3..e] == END_HEADER
    ensures ParseHeader(data) == Some((Counts(nv, nf), e))
  {
    HeaderFromElement(data, 4, Counts(-1, -1), VERTEX, nv, Counts(nv, -1), p2);
    HeaderFromElement(data, p2, Counts(nv, -1), FACE, nf, Counts(nv, nf), p3);
    HeaderFromEnd(data, p3, Counts(nv, nf), e);
    HeaderChain(data, p2, p3, Counts(nv, -1), Counts(nv, nf), e);
  }

  lemma HeaderChain(data: seq<bv8>, p2: nat, p3: nat, c2: Counts, c3: Counts, e: nat)
    requires |data| >= 4 && data[..4] == PLY_MAGIC
    requires 4 <= p2 <= p3 <= |data|
    requires c3.vertices >= 0 && c3.faces >= 0
    requires HeaderFrom(data, 4, Counts(-1, -1)) == HeaderFrom(data, p2, c2)
    requires HeaderFrom(data, p2, c2) == HeaderFrom(data, p3, c3)
    requires HeaderFrom(data, p3, c3) == Some((c3, e))
    ensures ParseHeader(data) == Some((c3, e))
  {
    ParseHeaderMagic(data, c3, e);
  }
}
