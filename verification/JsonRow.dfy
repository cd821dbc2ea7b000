/**
  The canonical text of a table row (scripts/xiaoyou_agenda_semantic_gate.py): a compact JSON object with its keys in
  a fixed order. Rows with the same keys and the same text are equal, and the text holds no newline.
 */
module JsonRow {
  import Decimal

  type Byte = n: nat | n < 256

  /** A value as SQLite stores it; a real number stands as the text that represents it. */
  datatype Value = Null | Int(n: int) | Real(text: string) | Str(s: string) | Blob(bytes: seq<Byte>)

  type Row = map<string, Value>

  predicate NumberChar(c: char) {
    || Decimal.IsDigit(c) || c == '-' || c == '+' || RealMark(c)
    || c == 'n' || c == 'f' || c == 'i' || c == 't' || c == 'y'
  }

  /** Characters that no integer has. */
  predicate RealMark(c: char) {
    c == '.' || c == 'e' || c == 'I'
  }

  /** Texts of real numbers, which no integer has. */
  predicate RealText(s: string) {
    && s != "" && (forall i :: 0 <= i < |s| ==> NumberChar(s[i]))
    && (Decimal.IsDigit(s[0]) || s[0] == '-' || s[0] == 'I')
    && (exists i :: 0 <= i < |s| && RealMark(s[i]))
  }

  predicate ValueOk(v: Value) {
    v.Real? ==> RealText(v.text)
  }

  // ----- Strings -----

  function HexDigit(n: nat): (c: char)
    requires n < 16
    ensures Decimal.IsDigit(c) || 'a' <= c <= 'f'
  {
    if n < 10 then ('0' as int + n) as char else ('a' as int + n - 10) as char
  }

  function Escape(c: char): string {
    match c
    case '"' => ['\\', '"']
    case '\\' => ['\\', '\\']
    case '\U{8}' => ['\\', 'b']
    case '\U{c}' => ['\\', 'f']
    case '\n' => ['\\', 'n']
    case '\r' => ['\\', 'r']
    case '\t' => ['\\', 't']
    case _ =>
      if c < ' ' then ['\\', 'u', '0', '0', HexDigit(c as int / 16), HexDigit(c as int % 16)] else [c]
  }

  function EscapeAll(s: string): string {
    if s == "" then "" else Escape(s[0]) + EscapeAll(s[1..])
  }

  function Quote(s: string): string {
    ['"'] + (EscapeAll(s) + ['"'])
  }

  lemma HexDigitInjective(m: nat, n: nat)
    requires m < 16 && n < 16 && HexDigit(m) == HexDigit(n)
    ensures m == n
  {
  }

  /** The code of a character ends where it ends: nothing that follows can change it. */
  lemma EscapePrefixFree(c: char, x: string, d: char, y: string)
    requires Escape(c) + x == Escape(d) + y
    ensures c == d && x == y
  {
    var l, r := Escape(c) + x, Escape(d) + y;
    EscapeShape(c);
    EscapeShape(d);
    assert l[0] == Escape(c)[0] && r[0] == Escape(d)[0];
    if l[0] == '\\' {
      assert l[1] == Escape(c)[1] && r[1] == Escape(d)[1];
      if l[1] == 'u' {
        assert l[4] == Escape(c)[4] && r[4] == Escape(d)[4] && l[5] == Escape(c)[5] && r[5] == Escape(d)[5];
        HexDigitInjective(c as int / 16, d as int / 16);
        HexDigitInjective(c as int % 16, d as int % 16);
      }
    }
    assert c == d;
    assert x == l[|Escape(c)|..] && y == r[|Escape(d)|..];
  }

  /** Whether a character is escaped, and how, shows in the first two characters of its code. */
  lemma EscapeShape(c: char)
    ensures Escape(c) != [] && Escape(c)[0] != '"' && '\n' !in Escape(c)
    ensures Escape(c)[0] != '\\' ==> Escape(c) == [c]
    ensures Escape(c)[0] == '\\' ==> |Escape(c)| >= 2
    ensures Escape(c)[0] == '\\' && Escape(c)[1] == 'u' ==>
      c < ' ' && |Escape(c)| == 6 && Escape(c)[4] == HexDigit(c as int / 16) && Escape(c)[5] == HexDigit(c as int % 16)
    ensures Escape(c)[0] == '\\' && Escape(c)[1] != 'u' ==> Named(Escape(c)[1]) == c
  {
  }

  /** The character behind a two-character escape. */
  function Named(e: char): char {
    match e
    case 'b' => '\U{8}'
    case 'f' => '\U{c}'
    case 'n' => '\n'
    case 'r' => '\r'
    case 't' => '\t'
    case _ => e
  }

  /** A quoted string can be read back in only one way, whatever follows it. */
  lemma {:induction false} QuotedTail(a: string, x: string, b: string, y: string)
    requires EscapeAll(a) + (['"'] + x) == EscapeAll(b) + (['"'] + y)
    ensures a == b && x == y
  {
    EscapeAllHead(a, x);
    EscapeAllHead(b, y);
    if a != "" && b != "" {
      var p, q := ['"'] + x, ['"'] + y;
      EscapePrefixFree(a[0], EscapeAll(a[1..]) + p, b[0], EscapeAll(b[1..]) + q);
      QuotedTail(a[1..], x, b[1..], y);
      assert a == [a[0]] + a[1..] && b == [b[0]] + b[1..];
    }
  }

  /** The text of a quoted string starts with the closing quote exactly when nothing is left. */
  lemma EscapeAllHead(a: string, x: string)
    ensures (EscapeAll(a) + (['"'] + x))[0] == '"' <==> a == ""
    ensures a == "" ==> (EscapeAll(a) + (['"'] + x))[1..] == x
    ensures a != "" ==> EscapeAll(a) + (['"'] + x) == Escape(a[0]) + (EscapeAll(a[1..]) + (['"'] + x))
  {
    if a == "" {
      assert EscapeAll(a) + (['"'] + x) == ['"'] + x;
    } else {
      EscapeShape(a[0]);
      Regroup(Escape(a[0]), EscapeAll(a[1..]), ['"'] + x);
    }
  }

  lemma Regroup(p: string, q: string, r: string)
    ensures (p + q) + r == p + (q + r)
    ensures p != "" ==> (p + (q + r))[0] == p[0]
  {
  }

  lemma QuotePrefixFree(a: string, x: string, b: string, y: string)
    requires Quote(a) + x == Quote(b) + y
    ensures a == b && x == y
  {
    var p, q := EscapeAll(a) + (['"'] + x), EscapeAll(b) + (['"'] + y);
    assert Quote(a) + x == ['"'] + p && Quote(b) + y == ['"'] + q;
    assert p == (['"'] + p)[1..] && q == (['"'] + q)[1..];
    QuotedTail(a, x, b, y);
  }

  lemma {:induction false} EscapeAllOneLine(s: string)
    ensures '\n' !in EscapeAll(s)
  {
    if s != "" {
      EscapeShape(s[0]);
      EscapeAllOneLine(s[1..]);
    }
  }

  // ----- Values -----

  function Hex(bytes: seq<Byte>): string {
    if bytes == [] then ""
    else [HexDigit(bytes[0] / 16), HexDigit(bytes[0] % 16)] + Hex(bytes[1..])
  }

  function EncodeInt(n: int): string {
    if n < 0 then ['-'] + Decimal.Print(-n) else Decimal.Print(n)
  }

  const NULL := "null"
  const BLOB_OPEN := "{\"__blob_hex__\":"

  function Encode(v: Value): string {
    match v
    case Null => NULL
    case Int(n) => EncodeInt(n)
    case Real(text) => text
    case Str(s) => Quote(s)
    case Blob(bytes) => BLOB_OPEN + (Quote(Hex(bytes)) + "}")
  }

  /** Values written without quotes or braces. */
  predicate Atom(v: Value) {
    v.Null? || v.Int? || v.Real?
  }

  predicate AtomChar(c: char) {
    c != ',' && c != '}' && c != '"' && c != '{' && c != '\n'
  }

  lemma {:induction false} HexInjective(a: seq<Byte>, b: seq<Byte>)
    requires Hex(a) == Hex(b)
    ensures a == b
  {
    if a != [] && b != [] {
      var s, t := Hex(a), Hex(b);
      assert s[0] == t[0] && s[1] == t[1] && s[2..] == Hex(a[1..]) && t[2..] == Hex(b[1..]);
      HexDigitInjective(a[0] / 16, b[0] / 16);
      HexDigitInjective(a[0] % 16, b[0] % 16);
      HexInjective(a[1..], b[1..]);
      assert a == [a[0]] + a[1..] && b == [b[0]] + b[1..];
    }
  }

  lemma EncodeIntShape(n: int)
    ensures EncodeInt(n) != "" && forall i :: 0 <= i < |EncodeInt(n)| ==> Decimal.IsDigit(EncodeInt(n)[i]) || EncodeInt(n)[i] == '-'
    ensures EncodeInt(n)[0] == '-' <==> n < 0
  {
    Decimal.RoundTrip(if n < 0 then -n else n);
  }

  lemma EncodeIntInjective(m: int, n: int)
    requires EncodeInt(m) == EncodeInt(n)
    ensures m == n
  {
    EncodeIntShape(m);
    EncodeIntShape(n);
    if m < 0 {
      assert Decimal.Print(-m) == EncodeInt(m)[1..] == EncodeInt(n)[1..] == Decimal.Print(-n);
      Decimal.PrintInjective(-m, -n);
    } else {
      Decimal.PrintInjective(m, n);
    }
  }

  lemma AtomShape(v: Value)
    requires Atom(v) && ValueOk(v)
    ensures Encode(v) != "" && forall i :: 0 <= i < |Encode(v)| ==> AtomChar(Encode(v)[i])
    ensures Encode(v)[0] == 'n' <==> v.Null?
    ensures (exists i :: 0 <= i < |Encode(v)| && RealMark(Encode(v)[i])) <==> v.Real?
  {
    match v
    case Null =>
      assert Encode(v) == ['n', 'u', 'l', 'l'];
    case Int(n) => EncodeIntShape(n);
    case Real(text) =>
  }

  lemma AtomInjective(v: Value, w: Value)
    requires Atom(v) && Atom(w) && ValueOk(v) && ValueOk(w) && Encode(v) == Encode(w)
    ensures v == w
  {
    AtomShape(v);
    AtomShape(w);
    if v.Int? && w.Int? {
      EncodeIntInjective(v.n, w.n);
    }
  }

  /** What may follow a value in a row. */
  predicate Delimited(x: string) {
    x != "" && (x[0] == ',' || x[0] == '}')
  }

  lemma AtomPrefixFree(v: Value, x: string, w: Value, y: string)
    requires Atom(v) && Atom(w) && ValueOk(v) && ValueOk(w) && Delimited(x) && Delimited(y)
    requires Encode(v) + x == Encode(w) + y
    ensures v == w && x == y
  {
    AtomShape(v);
    AtomShape(w);
    SplitAtDelimiter(Encode(v), x, Encode(w), y);
    AtomInjective(v, w);
  }

  lemma SplitAtDelimiter(s: string, x: string, t: string, y: string)
    requires forall i :: 0 <= i < |s| ==> AtomChar(s[i])
    requires forall i :: 0 <= i < |t| ==> AtomChar(t[i])
    requires Delimited(x) && Delimited(y) && s + x == t + y
    ensures s == t && x == y
  {
    var l, r := s + x, t + y;
    assert l[|s|] == x[0] && r[|t|] == y[0];
    assert |s| >= |t| && |t| >= |s|;
    assert s == l[..|s|] && t == r[..|t|];
    assert x == l[|s|..] && y == r[|t|..];
  }

  lemma BlobPrefixFree(a: seq<Byte>, x: string, b: seq<Byte>, y: string)
    requires Encode(Blob(a)) + x == Encode(Blob(b)) + y
    ensures a == b && x == y
  {
    var p, q := Quote(Hex(a)), Quote(Hex(b));
    Regroup(BLOB_OPEN, p + "}", x);
    Regroup(BLOB_OPEN, q + "}", y);
    Regroup(p, "}", x);
    Regroup(q, "}", y);
    Cancel(BLOB_OPEN, p + ("}" + x), q + ("}" + y));
    QuotePrefixFree(Hex(a), "}" + x, Hex(b), "}" + y);
    Cancel("}", x, y);
    HexInjective(a, b);
  }

  /** The first character of a value tells its kind. */
  lemma EncodeHead(v: Value, x: string)
    requires ValueOk(v)
    ensures var s := Encode(v) + x; s != "" && (s[0] == '"' <==> v.Str?) && (s[0] == '{' <==> v.Blob?)
  {
    if Atom(v) {
      AtomShape(v);
    }
  }

  /** In a row a value can be read back in only one way. */
  lemma EncodePrefixFree(v: Value, x: string, w: Value, y: string)
    requires ValueOk(v) && ValueOk(w) && Delimited(x) && Delimited(y)
    requires Encode(v) + x == Encode(w) + y
    ensures v == w && x == y
  {
    EncodeHead(v, x);
    EncodeHead(w, y);
    if v.Str? {
      QuotePrefixFree(v.s, x, w.s, y);
    } else if v.Blob? {
      BlobPrefixFree(v.bytes, x, w.bytes, y);
    } else {
      AtomPrefixFree(v, x, w, y);
    }
  }

  lemma EncodeOneLine(v: Value)
    requires ValueOk(v)
    ensures '\n' !in Encode(v)
  {
    match v
    case Str(s) => EscapeAllOneLine(s);
    case Blob(bytes) => EscapeAllOneLine(Hex(bytes));
    case _ => AtomShape(v);
  }

  // ----- Rows -----

  ghost predicate RowOk(keys: seq<string>, row: Row) {
    (forall key :: key in row <==> key in keys) && forall key :: key in row ==> ValueOk(row[key])
  }

  /** The fields of a row under the given keys, up to the closing brace. */
  function Fields(keys: seq<string>, row: Row): string
    requires forall key :: key in keys ==> key in row
  {
    if keys == [] then "}"
    else
      Quote(keys[0]) + (":" + (Encode(row[keys[0]]) + ((if |keys| == 1 then "" else ",") + Fields(keys[1..], row))))
  }

  function EncodeRow(keys: seq<string>, row: Row): string
    requires forall key :: key in keys ==> key in row
  {
    "{" + Fields(keys, row)
  }

  /** Prefixes that are the same cancel. */
  lemma Cancel(p: string, x: string, y: string)
    requires p + x == p + y
    ensures x == y
  {
    assert x == (p + x)[|p|..] && y == (p + y)[|p|..];
  }

  ghost predicate Agree(keys: seq<string>, a: Row, b: Row) {
    forall key :: key in keys ==> key in a && key in b && a[key] == b[key]
  }

  lemma {:induction false} FieldsInjective(keys: seq<string>, a: Row, b: Row)
    requires forall key :: key in keys ==> key in a && key in b && ValueOk(a[key]) && ValueOk(b[key])
    requires Fields(keys, a) == Fields(keys, b)
    ensures Agree(keys, a, b)
  {
    if keys != [] {
      var k := keys[0];
      var sep := if |keys| == 1 then "" else ",";
      var x, y := sep + Fields(keys[1..], a), sep + Fields(keys[1..], b);
      Cancel(Quote(k), ":" + (Encode(a[k]) + x), ":" + (Encode(b[k]) + y));
      Cancel(":", Encode(a[k]) + x, Encode(b[k]) + y);
      EncodePrefixFree(a[k], x, b[k], y);
      Cancel(sep, Fields(keys[1..], a), Fields(keys[1..], b));
      FieldsInjective(keys[1..], a, b);
      assert keys == [k] + keys[1..];
    }
  }

  /** Rows of one table with the same text are the same. */
  lemma EncodeRowInjective(keys: seq<string>, a: Row, b: Row)
    requires RowOk(keys, a) && RowOk(keys, b)
    ensures EncodeRow(keys, a) == EncodeRow(keys, b) <==> a == b
  {
    if EncodeRow(keys, a) == EncodeRow(keys, b) {
      Cancel("{", Fields(keys, a), Fields(keys, b));
      FieldsInjective(keys, a, b);
      assert a.Keys == b.Keys;
    }
  }

  lemma {:induction false} FieldsOneLine(keys: seq<string>, row: Row)
    requires forall key :: key in keys ==> key in row && ValueOk(row[key])
    ensures '\n' !in Fields(keys, row)
  {
    if keys != [] {
      EscapeAllOneLine(keys[0]);
      EncodeOneLine(row[keys[0]]);
      FieldsOneLine(keys[1..], row);
    }
  }

  lemma EncodeRowOneLine(keys: seq<string>, row: Row)
    requires RowOk(keys, row)
    ensures '\n' !in EncodeRow(keys, row)
  {
    FieldsOneLine(keys, row);
  }
}
