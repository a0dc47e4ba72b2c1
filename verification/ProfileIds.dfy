/** Ids of camera profiles, as requests spell them and as rows carry them. */
module ProfileIds {
  import opened Options

  predicate IsHex(c: char) {
    '0' <= c <= '9' || 'a' <= c <= 'f' || 'A' <= c <= 'F'
  }

  predicate IsUuid(id: string) {
    |id| == 36 && forall i :: 0 <= i < 36 ==> if i in {8, 13, 18, 23} then id[i] == '-' else IsHex(id[i])
  }

  function LowerChar(c: char): char {
    if 'A' <= c <= 'F' then c - 'A' + 'a' else c
  }

  function Lower(id: string): (r: string)
    ensures |r| == |id| && forall i :: 0 <= i < |id| ==> r[i] == LowerChar(id[i])
  {
    seq(|id|, i requires 0 <= i < |id| => LowerChar(id[i]))
  }

  /** The row that an id in a request names: ids are compared as UUIDs, which have one lower-case form. */
  function Row(id: string): Option<string> {
    if IsUuid(id) then Some(Lower(id)) else None
  }

  /** A request names a row exactly with 32 hexadecimal digits in five groups of 8, 4, 4, 4 and 12, dashes between. */
  lemma UuidText(id: string)
    ensures Row(id).Some? <==> |id| == 36 && forall i :: 0 <= i < 36 ==>
      if i == 8 || i == 13 || i == 18 || i == 23 then id[i] == '-' else id[i] in "0123456789abcdefABCDEF"
  {
    HexDigits();
  }

  lemma HexDigits()
    ensures forall c: char :: IsHex(c) <==> c in "0123456789abcdefABCDEF"
  {
    forall c: char ensures IsHex(c) <==> c in "0123456789abcdefABCDEF" {
      HexDigit(c);
    }
  }

  lemma HexDigit(c: char)
    ensures IsHex(c) <==> c in "0123456789abcdefABCDEF"
  {
    var digits := "0123456789abcdefABCDEF";
    if '0' <= c <= '9' {
      assert digits[(c - '0') as int] == c;
    } else if 'a' <= c <= 'f' {
      assert digits[10 + (c - 'a') as int] == c;
    } else if 'A' <= c <= 'F' {
      assert digits[16 + (c - 'A') as int] == c;
    }
  }

  /** Rows carry their ids in lower case. */
  lemma LowerCaseIsStored(id: string)
    requires IsUuid(id) && forall i :: 0 <= i < |id| ==> !('A' <= id[i] <= 'Z')
    ensures Row(id) == Some(id)
  {
    assert Lower(id) == id;
  }

  /** The form under which a row is stored names that row. */
  lemma RowIsCanonical(id: string)
    requires Row(id).Some?
    ensures Row(Row(id).value) == Some(Row(id).value)
  {
    assert Lower(Lower(id)) == Lower(id);
  }

  lemma SameRow(p: string, q: string)
    requires IsUuid(p) && |q| == |p| && forall i :: 0 <= i < |p| ==> LowerChar(q[i]) == LowerChar(p[i])
    ensures Row(q) == Row(p)
  {
    forall i | 0 <= i < 36 ensures if i in {8, 13, 18, 23} then q[i] == '-' else IsHex(q[i]) {
      assert LowerChar(q[i]) == LowerChar(p[i]);
      assert if i in {8, 13, 18, 23} then p[i] == '-' else IsHex(p[i]);
    }
    assert Lower(q) == Lower(p);
  }

  /** A row has two spellings: an id that begins with a letter names the same row with it in capitals. */
  lemma TwoSpellings(p: string) returns (q: string)
    requires IsUuid(p) && 'a' <= p[0] <= 'f'
    ensures p != q && Row(q).Some? && Row(q) == Row(p)
  {
    q := [p[0] - 'a' + 'A'] + p[1..];
    SameRow(p, q);
  }

  lemma NoColon(id: string)
    requires IsUuid(id)
    ensures ':' !in id
  {
    forall i | 0 <= i < |id| ensures id[i] != ':' {
      assert if i in {8, 13, 18, 23} then id[i] == '-' else IsHex(id[i]);
    }
  }
}
