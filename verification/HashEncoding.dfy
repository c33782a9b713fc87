/** The length-prefixed byte stream that `taskUID` hashes (`writeHashString`, bin/cargo/tasks.go). */
module HashEncoding {
  import opened Text

  function Field(value: string): string {
    Decimal(|value|) + ":" + value
  }

  function Encode(values: seq<string>): string {
    if values == [] then "" else Encode(values[..|values| - 1]) + Field(values[|values| - 1])
  }

  lemma EncodeLast(values: seq<string>, x: string)
    ensures Encode(values + [x]) == Encode(values) + Field(x)
  {
    hide Field;
    assert (values + [x])[..|values|] == values;
  }

  lemma {:induction false} EncodeAppend(a: seq<string>, b: seq<string>)
    ensures Encode(a + b) == Encode(a) + Encode(b)
  {
    if b == [] {
      assert a + b == a;
    } else {
      hide Field, Encode;
      var b', x := b[..|b| - 1], b[|b| - 1];
      EncodeAppend(a, b');
      EncodeLast(b', x);
      EncodeLast(a + b', x);
      assert b' + [x] == b && a + b' + [x] == a + b;
      Together(Encode(a), Encode(b'), Field(x));
    }
  }

  lemma EncodeFirst(values: seq<string>)
    requires values != []
    ensures Encode(values) == Field(values[0]) + Encode(values[1..])
  {
    hide Field;
    EncodeAppend(values[..1], values[1..]);
    assert values == values[..1] + values[1..];
    assert values[..1][..0] == [];
  }

  /** A colon ends the digits, so the length cannot be read in two ways. */
  lemma {:induction false} SplitAtColon(a: string, x: string, b: string, y: string)
    requires AllDigits(a) && AllDigits(b)
    requires a + (":" + x) == b + (":" + y)
    ensures a == b && x == y
  {
    var s, t := a + (":" + x), b + (":" + y);
    assert s[0] == if a == [] then ':' else a[0];
    assert t[0] == if b == [] then ':' else b[0];
    assert (a != [] ==> a[0] in a) && (b != [] ==> b[0] in b);
    if a != [] && b != [] {
      assert s[1..] == a[1..] + (":" + x) && t[1..] == b[1..] + (":" + y);
      SplitAtColon(a[1..], x, b[1..], y);
      assert a == [a[0]] + a[1..] && b == [b[0]] + b[1..];
    } else {
      assert s[1..] == x || a != [];
      assert t[1..] == y || b != [];
    }
  }

  /** A field says where it ends. */
  lemma FieldsSplit(v: string, x: string, w: string, y: string)
    requires Field(v) + x == Field(w) + y
    ensures v == w && x == y
  {
    NumberOfDecimal(|v|);
    NumberOfDecimal(|w|);
    assert Field(v) + x == Decimal(|v|) + (":" + (v + x));
    assert Field(w) + y == Decimal(|w|) + (":" + (w + y));
    SplitAtColon(Decimal(|v|), v + x, Decimal(|w|), w + y);
    assert v == (v + x)[..|v|] && w == (w + y)[..|w|];
    assert x == (v + x)[|v|..] && y == (w + y)[|w|..];
  }

  /** Different lists of strings are written as different streams. */
  lemma {:induction false} EncodeInjective(a: seq<string>, b: seq<string>)
    requires Encode(a) == Encode(b)
    ensures a == b
    decreases |a| + |b|
  {
    if a != [] && b != [] {
      EncodeFirst(a);
      EncodeFirst(b);
      FieldsSplit(a[0], Encode(a[1..]), b[0], Encode(b[1..]));
      EncodeInjective(a[1..], b[1..]);
      assert a == [a[0]] + a[1..] && b == [b[0]] + b[1..];
    }
  }
}
