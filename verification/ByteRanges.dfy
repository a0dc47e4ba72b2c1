/** The Range request header: what the server makes of it, and what it denotes by section 14.1.2 of
RFC 9110.  Numbers are unbounded here. */
module ByteRanges {
  import opened Options

  // The answer of parseRange: null, 'unsatisfiable' or a span.
  datatype Parsed = WholeFile | Unsatisfiable | Span(start: int, end: int)

  // ---- Decimal numbers

  predicate IsDigit(ch: char) {
    '0' <= ch <= '9'
  }

  predicate AllDigits(s: string) {
    forall i :: 0 <= i < |s| ==> IsDigit(s[i])
  }

  function ParseInt(s: string): nat
    requires AllDigits(s)
  {
    if s == "" then 0 else ParseInt(s[..|s| - 1]) * 10 + (s[|s| - 1] - '0') as nat
  }

  function Print(n: nat): (s: string)
    ensures s != "" && AllDigits(s)
  {
    if n < 10 then [('0' as int + n) as char] else Print(n / 10) + [('0' as int + n % 10) as char]
  }

  function Power(n: nat): nat {
    if n == 0 then 1 else 10 * Power(n - 1)
  }

  /** Numerals are decimal: what stands in front of k more digits counts for ten to the k. */
  lemma {:induction false} ParseIntIsDecimal(s: string, t: string)
    requires AllDigits(s) && AllDigits(t)
    ensures ParseInt(s + t) == ParseInt(s) * Power(|t|) + ParseInt(t)
  {
    if t == "" {
      assert s + t == s;
    } else {
      var front := t[..|t| - 1];
      ParseIntIsDecimal(s, front);
      var st := s + t;
      assert st[..|st| - 1] == s + front && st[|st| - 1] == t[|t| - 1];
      TenTimes(ParseInt(s), Power(|front|), ParseInt(front));
    }
  }

  lemma TenTimes(a: int, b: int, c: int)
    ensures (a * b + c) * 10 == a * (10 * b) + c * 10
  {}

  lemma DigitsAreTheirValues(d: char)
    requires IsDigit(d)
    ensures ParseInt([d]) == (d - '0') as int && ParseInt("10") == 10
  {
    assert [d][..0] == "" && "10"[..1] == "1" && "1"[..0] == "";
  }

  lemma {:induction false} ParsePrint(n: nat)
    ensures ParseInt(Print(n)) == n
  {
    if n < 10 {
      assert Print(n)[..0] == "";
    } else {
      ParsePrint(n / 10);
      var s := Print(n);
      assert s[..|s| - 1] == Print(n / 10);
    }
  }

  lemma PrintInjective(m: nat, n: nat)
    requires Print(m) == Print(n)
    ensures m == n
  {
    ParsePrint(m);
    ParsePrint(n);
  }

  // ---- The header

  // The characters that trim() removes.
  predicate IsSpace(ch: char) {
    || '\t' <= ch <= '\r' || ch == ' ' || ch == '\U{A0}' || ch == '\U{1680}' || '\U{2000}' <= ch <= '\U{200A}'
    || ch == '\U{2028}' || ch == '\U{2029}' || ch == '\U{202F}' || ch == '\U{205F}' || ch == '\U{3000}' || ch == '\U{FEFF}'
  }

  function TrimStart(s: string): string {
    if s != "" && IsSpace(s[0]) then TrimStart(s[1..]) else s
  }

  function TrimEnd(s: string): string {
    if s != "" && IsSpace(s[|s| - 1]) then TrimEnd(s[..|s| - 1]) else s
  }

  function Trim(s: string): string {
    TrimEnd(TrimStart(s))
  }

  predicate Blank(s: string) {
    forall i :: 0 <= i < |s| ==> IsSpace(s[i])
  }

  /** Of the characters that a header field can carry in ASCII just the space and the tab are blank. */
  lemma BlanksOfHeaders(ch: char)
    requires ch == '\t' || ' ' <= ch <= '~'
    ensures IsSpace(ch) <==> ch == '\t' || ch == ' '
  {}

  lemma {:induction false} TrimStartBlank(l: string, s: string)
    requires Blank(l) && (s == "" || !IsSpace(s[0]))
    ensures TrimStart(l + s) == s
  {
    if l == "" {
      assert l + s == s;
    } else {
      assert (l + s)[1..] == l[1..] + s;
      TrimStartBlank(l[1..], s);
    }
  }

  lemma {:induction false} TrimEndBlank(s: string, r: string)
    requires Blank(r) && (s == "" || !IsSpace(s[|s| - 1]))
    ensures TrimEnd(s + r) == s
  {
    if r == "" {
      assert s + r == s;
    } else {
      assert (s + r)[..|s + r| - 1] == s + r[..|r| - 1];
      TrimEndBlank(s, r[..|r| - 1]);
    }
  }

  /** Trimming drops the blanks around a text that neither begins nor ends with one, and nothing else. */
  lemma TrimAround(l: string, s: string, r: string)
    requires Blank(l) && Blank(r) && s != "" && !IsSpace(s[0]) && !IsSpace(s[|s| - 1])
    ensures Trim(l + s + r) == s
  {
    assert l + s + r == l + (s + r);
    TrimStartBlank(l, s + r);
    TrimEndBlank(s, r);
  }

  lemma {:induction false} TrimStartDrops(s: string) returns (l: string)
    ensures Blank(l) && s == l + TrimStart(s)
  {
    if s != "" && IsSpace(s[0]) {
      var rest := TrimStartDrops(s[1..]);
      l := [s[0]] + rest;
      assert s == [s[0]] + s[1..];
    } else {
      l := "";
    }
  }

  lemma {:induction false} TrimEndDrops(s: string) returns (r: string)
    ensures Blank(r) && s == TrimEnd(s) + r
  {
    if s != "" && IsSpace(s[|s| - 1]) {
      var rest := TrimEndDrops(s[..|s| - 1]);
      r := rest + [s[|s| - 1]];
      assert s == s[..|s| - 1] + [s[|s| - 1]];
    } else {
      r := "";
    }
  }

  const UNIT := "bytes="

  // The length of the longest run of digits at the front.
  function DigitRun(s: string): (n: nat)
    ensures n <= |s| && AllDigits(s[..n]) && (n < |s| ==> !IsDigit(s[n]))
  {
    if s != "" && IsDigit(s[0]) then 1 + DigitRun(s[1..]) else 0
  }

  /** The match of the pattern: the unit, digits, a dash, digits, and nothing else. */
  function Match(t: string): (m: Option<(string, string)>)
    ensures m.Some? ==> AllDigits(m.value.0) && AllDigits(m.value.1)
  {
    if !(UNIT <= t) then None else
      var spec := t[|UNIT|..];
      var n := DigitRun(spec);
      if n < |spec| && spec[n] == '-' && DigitRun(spec[n + 1..]) == |spec[n + 1..]| then
        assert spec[n + 1..] == spec[n + 1..][..|spec[n + 1..]|];
        Some((spec[..n], spec[n + 1..]))
      else None
  }

  predicate WellFormed(t: string, first: string, last: string) {
    AllDigits(first) && AllDigits(last) && t == UNIT + first + "-" + last
  }

  /** Match is the pattern: it finds the two numbers exactly when the text is built from them. */
  lemma MatchIsPattern(t: string, first: string, last: string)
    ensures Match(t) == Some((first, last)) <==> WellFormed(t, first, last)
  {
    if WellFormed(t, first, last) {
      var spec := t[|UNIT|..];
      assert spec == first + ("-" + last);
      DigitRunStops(first, "-" + last);
      DigitRunStops(last, "");
      assert last + "" == last && spec[..|first|] == first && spec[|first| + 1..] == last;
    }
    if Match(t) == Some((first, last)) {
      assert t[|UNIT|..] == first + "-" + last;
    }
  }

  /** A header that asks for the range with these two numbers, either of which may be missing: blanks, the unit, the
  numbers with a dash between them, and blanks. */
  ghost predicate Spells(header: string, first: string, last: string) {
    AllDigits(first) && AllDigits(last) && exists l, r :: Around(header, l, "bytes=" + first + "-" + last, r)
  }

  predicate Around(header: string, l: string, spec: string, r: string) {
    Blank(l) && Blank(r) && header == l + spec + r
  }

  lemma SpecIsTrimmed(first: string, last: string)
    requires AllDigits(first) && AllDigits(last)
    ensures var spec := "bytes=" + first + "-" + last;
      spec != "" && !IsSpace(spec[0]) && !IsSpace(spec[|spec| - 1])
  {
    var spec := "bytes=" + first + "-" + last;
    assert spec[0] == 'b';
    assert spec[|spec| - 1] == if last == "" then '-' else last[|last| - 1];
  }

  /** The code's own way of reading a header finds just that. */
  lemma SpellsIsTrimmedPattern(header: string, first: string, last: string)
    ensures Spells(header, first, last) <==> WellFormed(Trim(header), first, last)
  {
    if Spells(header, first, last) {
      var l, r :| Around(header, l, "bytes=" + first + "-" + last, r);
      SpecIsTrimmed(first, last);
      TrimAround(l, "bytes=" + first + "-" + last, r);
    }
    if WellFormed(Trim(header), first, last) {
      var l := TrimStartDrops(header);
      var r := TrimEndDrops(TrimStart(header));
      assert header == l + Trim(header) + r;
      assert Around(header, l, "bytes=" + first + "-" + last, r);
    }
  }

  lemma {:induction false} DigitRunStops(digits: string, rest: string)
    requires AllDigits(digits) && (rest == "" || !IsDigit(rest[0]))
    ensures DigitRun(digits + rest) == |digits|
  {
    if digits == "" {
      assert digits + rest == rest;
    } else {
      DigitRunStops(digits[1..], rest);
      assert (digits + rest)[1..] == digits[1..] + rest;
    }
  }

  /** parseRange */
  function ParseRange(header: Option<string>, size: nat): (r: Parsed)
    ensures r.Span? ==> 0 <= r.start <= r.end < size
  {
    if header.None? || header.value == "" then WholeFile else
      var m := Match(Trim(header.value));
      if m.None? then WholeFile else
        var (a, b) := m.value;
        if a == "" && b == "" then WholeFile
        else if a == "" then
          var n := ParseInt(b);
          if n == 0 then Unsatisfiable
          else Clamp(if size - n > 0 then size - n else 0, size - 1, size)
        else
          var end := if b != "" then ParseInt(b) else size - 1;
          Clamp(ParseInt(a), if end >= size then size - 1 else end, size)
  }

  // The last test of parseRange.
  function Clamp(start: int, end: int, size: int): Parsed {
    if start > end || start >= size then Unsatisfiable else Span(start, end)
  }

  // ---- What the header denotes (section 14.1.2 of RFC 9110)

  /** Whether byte i of a file of the given size is asked for: the last `suffix-length` bytes, or the
  bytes from `first-pos` to `last-pos`, or to the end. */
  predicate Denotes(first: string, last: string, size: nat, i: int)
    requires AllDigits(first) && AllDigits(last)
  {
    if first == "" then i >= size - ParseInt(last)
    else ParseInt(first) <= i && (last != "" ==> i <= ParseInt(last))
  }

  /** Every header that matches is answered with exactly the bytes it denotes within the file, and is
  unsatisfiable exactly when there are none. */
  lemma ParseRangeIsDenotation(header: string, first: string, last: string, size: nat)
    requires Spells(header, first, last) && (first != "" || last != "")
    ensures var r := ParseRange(Some(header), size);
      && r != WholeFile
      && (r == Unsatisfiable <==> forall i :: 0 <= i < size ==> !Denotes(first, last, size, i))
      && (r.Span? ==> 0 <= r.start <= r.end < size
                      && forall i :: (0 <= i < size && Denotes(first, last, size, i)) <==> r.start <= i <= r.end)
  {
    SpellsIsTrimmedPattern(header, first, last);
    MatchIsPattern(Trim(header), first, last);
    assert header != "";
    var r := ParseRange(Some(header), size);
    if r.Span? {
      assert Denotes(first, last, size, r.start);
    }
  }

  /** Any other header is ignored: the whole file is served. */
  lemma OtherHeadersIgnored(header: Option<string>, size: nat)
    ensures ParseRange(header, size) == WholeFile <==>
      header.None? || !exists a, b :: Spells(header.value, a, b) && (a != "" || b != "")
  {
    if header.Some? {
      if Match(Trim(header.value)).Some? {
        var (a, b) := Match(Trim(header.value)).value;
        MatchIsPattern(Trim(header.value), a, b);
        SpellsIsTrimmedPattern(header.value, a, b);
      }
      forall a, b | Spells(header.value, a, b) && (a != "" || b != "")
        ensures ParseRange(header, size) != WholeFile
      {
        ParseRangeIsDenotation(header.value, a, b, size);
      }
    }
  }

  // ---- Round trip

  function RangeHeader(start: nat, end: nat): string {
    UNIT + Print(start) + "-" + Print(end)
  }

  lemma PlainSpells(first: string, last: string)
    requires AllDigits(first) && AllDigits(last)
    ensures Spells("bytes=" + first + "-" + last, first, last)
  {
    var spec := "bytes=" + first + "-" + last;
    assert "" + spec + "" == spec;
    assert Around(spec, "", spec, "");
  }

  lemma ParsesPlain(first: string, last: string, size: nat)
    requires AllDigits(first) && AllDigits(last)
    ensures Trim("bytes=" + first + "-" + last) == "bytes=" + first + "-" + last
    ensures Match("bytes=" + first + "-" + last) == Some((first, last))
  {
    PlainSpells(first, last);
    SpellsIsTrimmedPattern("bytes=" + first + "-" + last, first, last);
    SpecIsTrimmed(first, last);
    TrimAround("", "bytes=" + first + "-" + last, "");
    assert "" + ("bytes=" + first + "-" + last) + "" == "bytes=" + first + "-" + last;
    MatchIsPattern("bytes=" + first + "-" + last, first, last);
  }

  /** Printing a span inside the file and parsing it gives the same span back. */
  lemma RangeRoundTrip(start: nat, end: nat, size: nat)
    requires start <= end < size
    ensures ParseRange(Some(RangeHeader(start, end)), size) == Span(start, end)
  {
    ParsesPlain(Print(start), Print(end), size);
    ParsePrint(start);
    ParsePrint(end);
  }

  /** A range without an end goes on to the last byte, and one without a start takes that many bytes from the end. */
  lemma OpenRangesRoundTrip(n: nat, size: nat)
    ensures n < size ==> ParseRange(Some("bytes=" + Print(n) + "-"), size) == Span(n, size - 1)
    ensures n >= size ==> ParseRange(Some("bytes=" + Print(n) + "-"), size) == Unsatisfiable
    ensures 0 < n <= size ==> ParseRange(Some("bytes=-" + Print(n)), size) == Span(size - n, size - 1)
    ensures n > size > 0 ==> ParseRange(Some("bytes=-" + Print(n)), size) == Span(0, size - 1)
    ensures n == 0 || size == 0 ==> ParseRange(Some("bytes=-" + Print(n)), size) == Unsatisfiable
  {
    ParsesPlain(Print(n), "", size);
    ParsesPlain("", Print(n), size);
    assert "bytes=" + Print(n) + "-" + "" == "bytes=" + Print(n) + "-";
    assert "bytes=" + "" + "-" + Print(n) == "bytes=-" + Print(n);
    ParsePrint(n);
  }
}
