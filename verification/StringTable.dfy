/** The string table: every text once, in the order of its encoded bytes
    (`sorted(s.encode("utf-8") for s in strings)`,
    keepkeylib/erc7730_compiler.py). */
module StringTable {
  import opened Bytes
  import opened Text
  import Utf8

  /** Python's order of byte strings. */
  predicate BytesLess(a: bytes, b: bytes) {
    b != [] && (a == [] || a[0] < b[0] || (a[0] == b[0] && BytesLess(a[1..], b[1..])))
  }

  lemma {:induction false} BytesTotal(a: bytes, b: bytes)
    requires a != b && !BytesLess(a, b)
    ensures BytesLess(b, a)
  {
    if a != [] && b != [] && a[0] == b[0] {
      assert a == [a[0]] + a[1..] && b == [b[0]] + b[1..];
      BytesTotal(a[1..], b[1..]);
    }
  }

  lemma {:induction false} BytesIrreflexive(a: bytes)
    ensures !BytesLess(a, a)
  {
    if a != [] {
      BytesIrreflexive(a[1..]);
    }
  }

  lemma {:induction false} BytesTransitive(a: bytes, b: bytes, c: bytes)
    requires BytesLess(a, b) && BytesLess(b, c)
    ensures BytesLess(a, c)
  {
    if a != [] && a[0] == b[0] == c[0] {
      BytesTransitive(a[1..], b[1..], c[1..]);
    }
  }

  // ------------------------------------------------------- the order of texts

  lemma {:induction false} LessAt(a: bytes, b: bytes, k: nat)
    requires k < |a| && k < |b| && a[..k] == b[..k] && a[k] < b[k]
    ensures BytesLess(a, b)
    decreases k
  {
    if k > 0 {
      assert a[..k][0] == b[..k][0];
      assert a[1..][..k - 1] == a[..k][1..] && b[1..][..k - 1] == b[..k][1..];
      LessAt(a[1..], b[1..], k - 1);
    }
  }

  lemma {:induction false} SameFront(p: bytes, a: bytes, b: bytes)
    ensures BytesLess(p + a, p + b) <==> BytesLess(a, b)
    decreases |p|
  {
    if p == [] {
      assert p + a == a && p + b == b;
    } else {
      assert (p + a)[1..] == p[1..] + a && (p + b)[1..] == p[1..] + b;
      SameFront(p[1..], a, b);
    }
  }

  /** Where the encodings of two characters first differ. */
  function Differ(n: nat, m: nat): nat {
    if m < 0x80 || (n < 0x80 <= m) then 0
    else if m < 0x800 || n < 0x800 then (if n < 0x800 && m < 0x800 && n / 0x40 == m / 0x40 then 1 else 0)
    else if m < 0x1_0000 || n < 0x1_0000 then
      if n < 0x1_0000 && m < 0x1_0000 && n / 0x1000 == m / 0x1000 then (if n / 0x40 == m / 0x40 then 2 else 1) else 0
    else if n / 0x4_0000 != m / 0x4_0000 then 0
    else if n / 0x1000 != m / 0x1000 then 1
    else if n / 0x40 != m / 0x40 then 2
    else 3
  }

  /** Six more bits are one more division by 64. */
  lemma Nested(n: nat)
    ensures n / 0x1000 == n / 0x40 / 0x40 && n / 0x4_0000 == n / 0x1000 / 0x40
  {
  }

  lemma NextDigit(q: nat, p: nat)
    requires q < p && q / 0x40 == p / 0x40
    ensures q % 0x40 < p % 0x40
  {
  }

  /** The encodings differ first at `k`, where the smaller has the smaller byte. */
  predicate DifferAt(a: bytes, b: bytes, k: nat) {
    k < |a| && k < |b| && a[..k] == b[..k] && a[k] < b[k]
  }

  lemma LongEncodingsDiffer(c: char, d: char)
    requires c < d && 0x1_0000 <= c as int
    ensures DifferAt(Utf8.EncodeChar(c), Utf8.EncodeChar(d), Differ(c as int, d as int))
  {
    var n, m := c as int, d as int;
    Nested(n);
    Nested(m);
    if n / 0x1000 == m / 0x1000 && n / 0x40 != m / 0x40 {
      NextDigit(n / 0x40, m / 0x40);
    }
    if n / 0x4_0000 == m / 0x4_0000 && n / 0x1000 != m / 0x1000 {
      NextDigit(n / 0x1000, m / 0x1000);
    }
  }

  lemma EncodingsDiffer(c: char, d: char)
    requires c < d && (c as int) < 0x1_0000
    ensures DifferAt(Utf8.EncodeChar(c), Utf8.EncodeChar(d), Differ(c as int, d as int))
  {
    var n, m := c as int, d as int;
    Nested(n);
    Nested(m);
    if n / 0x1000 == m / 0x1000 && n / 0x40 != m / 0x40 {
      NextDigit(n / 0x40, m / 0x40);
    }
  }

  /** UTF-8 keeps the order of characters, whatever follows them. */
  lemma CharacterOrder(c: char, d: char, x: bytes, y: bytes)
    requires c < d
    ensures BytesLess(Utf8.EncodeChar(c) + x, Utf8.EncodeChar(d) + y)
  {
    hide BytesLess, Utf8.EncodeChar, Differ;
    var a, b, k := Utf8.EncodeChar(c), Utf8.EncodeChar(d), Differ(c as int, d as int);
    if (c as int) < 0x1_0000 {
      EncodingsDiffer(c, d);
    } else {
      LongEncodingsDiffer(c, d);
    }
    assert (a + x)[..k] == a[..k] && (b + y)[..k] == b[..k];
    LessAt(a + x, b + y, k);
  }

  /** The table is in the order of the texts themselves: bytes compare as the
      characters they encode do. */
  lemma {:induction false} EncodingOrder(a: string, b: string)
    ensures BytesLess(Utf8.Encode(a), Utf8.Encode(b)) <==> TextLess(a, b)
    decreases |a|
  {
    hide Utf8.EncodeChar;
    if a != "" && b != "" {
      var x, y := Utf8.Encode(a[1..]), Utf8.Encode(b[1..]);
      if a[0] < b[0] {
        CharacterOrder(a[0], b[0], x, y);
      } else if b[0] < a[0] {
        CharacterOrder(b[0], a[0], y, x);
        if BytesLess(Utf8.Encode(a), Utf8.Encode(b)) {
          BytesTransitive(Utf8.Encode(a), Utf8.Encode(b), Utf8.Encode(a));
          BytesIrreflexive(Utf8.Encode(a));
        }
      } else {
        SameFront(Utf8.EncodeChar(a[0]), x, y);
        EncodingOrder(a[1..], b[1..]);
      }
    }
  }

  /** `b` put in its place unless it is there already. */
  function Insert(table: seq<bytes>, b: bytes): (r: seq<bytes>)
    ensures forall x :: x in r <==> x in table || x == b
  {
    if table == [] || BytesLess(b, table[0]) then [b] + table
    else if b == table[0] then table
    else [table[0]] + Insert(table[1..], b)
  }

  predicate Ascending(table: seq<bytes>) {
    |table| <= 1 || (BytesLess(table[0], table[1]) && Ascending(table[1..]))
  }

  lemma {:induction false} InsertAscending(table: seq<bytes>, b: bytes)
    requires Ascending(table)
    ensures Ascending(Insert(table, b))
  {
    if table != [] && !BytesLess(b, table[0]) && b != table[0] {
      BytesTotal(b, table[0]);
      InsertAscending(table[1..], b);
      assert Insert(table, b)[1..] == Insert(table[1..], b);
    } else if table != [] && BytesLess(b, table[0]) {
      assert ([b] + table)[1..] == table;
    }
  }

  lemma {:induction false} FirstIsLeast(table: seq<bytes>, i: nat)
    requires Ascending(table) && 0 < i < |table|
    ensures BytesLess(table[0], table[i])
  {
    if i > 1 {
      FirstIsLeast(table[1..], i - 1);
      BytesTransitive(table[0], table[1], table[i]);
    }
  }

  /** No string is listed twice, and earlier ones are smaller. */
  lemma {:induction false} AscendingIsDistinct(table: seq<bytes>, i: nat, j: nat)
    requires Ascending(table) && i < j < |table|
    ensures BytesLess(table[i], table[j]) && table[i] != table[j]
  {
    if i == 0 {
      FirstIsLeast(table, j);
    } else {
      AscendingIsDistinct(table[1..], i - 1, j - 1);
    }
    BytesIrreflexive(table[i]);
  }

  function Encoded(texts: seq<string>): (r: seq<bytes>)
    ensures |r| == |texts| && forall i :: 0 <= i < |r| ==> r[i] == Utf8.Encode(texts[i])
  {
    seq(|texts|, i requires 0 <= i < |texts| => Utf8.Encode(texts[i]))
  }

  /** Byte strings put in their places one by one. */
  function Table(bs: seq<bytes>): seq<bytes> {
    if bs == [] then [] else Insert(Table(bs[..|bs| - 1]), bs[|bs| - 1])
  }

  /** The strings are collected in a set and sorted. */
  method Sorted(texts: seq<string>) returns (table: seq<bytes>)
    ensures Ascending(table) && table == Table(Encoded(texts))
    ensures forall b :: b in table <==> b in Encoded(texts)
  {
    table := [];
    for n := 0 to |texts|
      invariant Ascending(table) && table == Table(Encoded(texts)[..n])
      invariant forall b :: b in table <==> b in Encoded(texts)[..n]
    {
      InsertAscending(table, Utf8.Encode(texts[n]));
      table := Insert(table, Utf8.Encode(texts[n]));
      assert Encoded(texts)[..n + 1] == Encoded(texts)[..n] + [Encoded(texts)[n]];
      assert Encoded(texts)[..n + 1][..n] == Encoded(texts)[..n];
    }
    assert Encoded(texts)[..|texts|] == Encoded(texts);
  }
}
