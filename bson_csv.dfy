/**
 * The BSON <-> CSV value codec: how a typed document value becomes flat text
 * for a CSV cell, how nested plain objects become dot-path columns, and how
 * the text readers for booleans, numbers, strings and object ids behave.
 *
 * Documents are ordered lists of (key, value) entries, as BSON documents and
 * JavaScript objects are. `Serialize` writes one column per leaf, in entry
 * order, into a flat key -> text map; when two columns share a key the later
 * one wins, as repeated property assignment does.
 */
module BsonCsv {
  import opened Wrappers
  import DecimalText

  type Byte = b: int | 0 <= b < 256

  /** The 12 bytes of a BSON object id. */
  type ObjectIdBytes = s: seq<Byte> | |s| == 12 witness [0, 0, 0, 0, 0, 0, 0, 0, 0, 0, 0, 0]

  datatype Value =
    | Null
    | Undefined
    | Bool(b: bool)
    | Number(n: int)                          // an integral JavaScript number
    | Long(n: int)                            // a BSON Long
    | Str(s: string)
    | ObjectId(id: ObjectIdBytes)
    | RegExp(pattern: string, flags: string)  // a JavaScript RegExp or a BSONRegExp
    | Array(items: seq<Value>)
    | Document(entries: seq<Entry>)           // a plain (sub-)object

  datatype Entry = Entry(key: string, value: Value)

  /** One CSV column of a serialized document: its header key and its cell text. */
  datatype Column = Column(key: string, text: string)

  predicate IsScalar(v: Value) { !v.Array? && !v.Document? }

  /** A plain object with at least one key: it is flattened into dot-path columns. */
  predicate IsNested(v: Value) { v.Document? && v.entries != [] }

  // ---------------------------------------------------------------------------
  // Text helpers

  function LowerChar(c: char): char
  {
    if 'A' <= c <= 'Z' then (c as int + 32) as char else c
  }

  /** ASCII lower-casing, character by character. */
  function AsciiLower(s: string): (r: string)
    ensures |r| == |s|
    ensures forall i :: 0 <= i < |s| ==> r[i] == LowerChar(s[i])
  {
    seq(|s|, i requires 0 <= i < |s| => LowerChar(s[i]))
  }

  /** The lower-case hexadecimal digit of `d`. */
  function HexChar(d: int): char
    requires 0 <= d < 16
  {
    if d < 10 then ('0' as int + d) as char else ('a' as int + d - 10) as char
  }

  /** A hexadecimal digit, either case. */
  predicate IsHexDigit(c: char)
  {
    '0' <= c <= '9' || 'a' <= c <= 'f' || 'A' <= c <= 'F'
  }

  /** The value of a hexadecimal digit (0 for any other character; the readers check `IsHex` first). */
  function HexValue(c: char): (r: int)
    ensures 0 <= r < 16
  {
    if '0' <= c <= '9' then c as int - '0' as int
    else if 'a' <= c <= 'f' then c as int - 'a' as int + 10
    else if 'A' <= c <= 'F' then c as int - 'A' as int + 10
    else 0
  }

  predicate IsHex(s: string)
  {
    forall i :: 0 <= i < |s| ==> IsHexDigit(s[i])
  }

  // ---------------------------------------------------------------------------
  // Object ids

  /** `ObjectId.toString()`: two lower-case hex digits per byte. */
  function ObjectIdToString(id: seq<Byte>): (s: string)
    ensures |s| == 2 * |id|
  {
    if id == [] then "" else [HexChar(id[0] / 16), HexChar(id[0] % 16)] + ObjectIdToString(id[1..])
  }

  /** Two digits per byte, the first one the high nibble (`fromString` only reads texts of even length). */
  function HexToBytes(s: string): (r: seq<Byte>)
    ensures |r| == |s| / 2
  {
    if |s| < 2 then [] else [16 * HexValue(s[0]) + HexValue(s[1])] + HexToBytes(s[2..])
  }

  /** `ObjectId.fromString`: accepts exactly a 24-digit hexadecimal string. */
  function ObjectIdFromString(s: string): (r: Option<ObjectIdBytes>)
    ensures r.Some? <==> |s| == 24 && IsHex(s)
  {
    if |s| == 24 && IsHex(s) then Some(HexToBytes(s)) else None
  }

  /** Each digit reads back as its value. */
  lemma HexCharValue(d: int)
    requires 0 <= d < 16
    ensures IsHexDigit(HexChar(d)) && HexValue(HexChar(d)) == d
  {
  }

  /** Each digit is written back lower-cased. */
  lemma HexCharOfValue(c: char)
    requires IsHexDigit(c)
    ensures HexChar(HexValue(c)) == LowerChar(c)
  {
  }

  /** The text of any byte string is hexadecimal. */
  lemma {:induction false} ObjectIdTextIsHex(id: seq<Byte>)
    ensures IsHex(ObjectIdToString(id))
  {
    if id != [] {
      var s := ObjectIdToString(id);
      HexCharValue(id[0] / 16);
      HexCharValue(id[0] % 16);
      ObjectIdTextIsHex(id[1..]);
      assert s[2..] == ObjectIdToString(id[1..]);
      forall i | 0 <= i < |s| ensures IsHexDigit(s[i]) {
        if i >= 2 {
          assert s[i] == s[2..][i - 2];
        }
      }
    }
  }

  /** Reading the text of a byte string gives back those bytes. */
  lemma {:induction false} HexToBytesOfString(id: seq<Byte>)
    ensures HexToBytes(ObjectIdToString(id)) == id
  {
    if id != [] {
      var x, tail := id[0], id[1..];
      assert id == [x] + tail;
      ToStringCons(x, tail);
      HexToBytesCons(HexChar(x / 16), HexChar(x % 16), ObjectIdToString(tail));
      HexCharValue(x / 16);
      HexCharValue(x % 16);
      HexToBytesOfString(tail);
    }
  }

  /** Writing the bytes read from hex text gives back that text, lower-cased. */
  lemma {:induction false} StringOfHexToBytes(s: string)
    requires |s| % 2 == 0 && IsHex(s)
    ensures ObjectIdToString(HexToBytes(s)) == AsciiLower(s)
  {
    if s != [] {
      var h, l := HexValue(s[0]), HexValue(s[1]);
      var x, tail := 16 * h + l, HexToBytes(s[2..]);
      assert HexToBytes(s) == [x] + tail;
      Nibbles(h, l);
      HexCharOfValue(s[0]);
      HexCharOfValue(s[1]);
      ToStringCons(x, tail);
      HexTail(s);
      StringOfHexToBytes(s[2..]);
      LowerCons(s);
    }
  }

  /** The high and low nibble of a byte. */
  lemma Nibbles(h: int, l: int)
    requires 0 <= h < 16 && 0 <= l < 16
    ensures (16 * h + l) / 16 == h && (16 * h + l) % 16 == l
  {
  }

  /** The text of a byte string starts with the two digits of its first byte. */
  lemma ToStringCons(x: Byte, tail: seq<Byte>)
    ensures ObjectIdToString([x] + tail) == [HexChar(x / 16), HexChar(x % 16)] + ObjectIdToString(tail)
  {
    assert ([x] + tail)[1..] == tail;
  }

  /** Reading a text that starts with two digits: their byte comes first. */
  lemma HexToBytesCons(a: char, b: char, rest: string)
    ensures HexToBytes([a, b] + rest) == [16 * HexValue(a) + HexValue(b)] + HexToBytes(rest)
  {
    var s := [a, b] + rest;
    assert s[0] == a && s[1] == b && s[2..] == rest;
  }

  /** Dropping two digits of a hex text leaves a hex text. */
  lemma HexTail(s: string)
    requires 2 <= |s| && IsHex(s)
    ensures IsHex(s[2..])
  {
    forall i | 0 <= i < |s| - 2 ensures IsHexDigit(s[2..][i]) {
      assert s[2..][i] == s[i + 2];
    }
  }

  /** Lower-casing the first two characters, then the rest. */
  lemma LowerCons(s: string)
    requires 2 <= |s|
    ensures AsciiLower(s) == [LowerChar(s[0]), LowerChar(s[1])] + AsciiLower(s[2..])
  {
    var r := [LowerChar(s[0]), LowerChar(s[1])] + AsciiLower(s[2..]);
    forall i | 0 <= i < |s| ensures AsciiLower(s)[i] == r[i] {
      if i >= 2 {
        assert s[2..][i - 2] == s[i];
      }
    }
  }

  /** Every object id survives `toString` followed by `fromString`. */
  lemma ObjectIdRoundTrip(id: ObjectIdBytes)
    ensures ObjectIdFromString(ObjectIdToString(id)) == Some(id)
  {
    ObjectIdTextIsHex(id);
    HexToBytesOfString(id);
  }

  /** `fromString` then `toString` gives back the hex text, lower-cased; so lower-case text comes back unchanged. */
  lemma ObjectIdStringRoundTrip(s: string)
    requires |s| == 24 && IsHex(s)
    ensures ObjectIdFromString(s).Some?
    ensures ObjectIdToString(ObjectIdFromString(s).value) == AsciiLower(s)
    ensures (forall i :: 0 <= i < |s| ==> !('A' <= s[i] <= 'Z')) ==> ObjectIdToString(ObjectIdFromString(s).value) == s
  {
    StringOfHexToBytes(s);
  }

  // ---------------------------------------------------------------------------
  // Scalar text

  function RegExpText(pattern: string, flags: string): string
  {
    "/" + pattern + "/" + flags
  }

  /** The CSV cell text of a scalar value. */
  function ScalarText(v: Value): string
    requires IsScalar(v)
  {
    match v
    case Null => "null"
    case Undefined => "undefined"
    case Bool(b) => if b then "true" else "false"
    case Number(n) => DecimalText.IntToString(n)
    case Long(n) => DecimalText.IntToString(n)
    case Str(s) => s
    case ObjectId(id) => ObjectIdToString(id)
    case RegExp(p, f) => RegExpText(p, f)
  }

  /** `null` and `undefined` get distinct cells, both distinct from the blank cell. */
  lemma NullUndefinedDistinct()
    ensures ScalarText(Null) == "null" && ScalarText(Undefined) == "undefined"
    ensures ScalarText(Null) != ScalarText(Undefined)
    ensures ScalarText(Null) != "" && ScalarText(Undefined) != ""
  {
  }

  /** The text after the last '/' of `s` (all of `s` when it has none). */
  function AfterLastSlash(s: string): string
  {
    if s == "" || s[|s| - 1] == '/' then "" else AfterLastSlash(s[..|s| - 1]) + [s[|s| - 1]]
  }

  lemma {:induction false} AfterLastSlashOf(x: string, f: string)
    requires '/' !in f
    ensures AfterLastSlash(x + "/" + f) == f
  {
    var t := x + "/" + f;
    if f != [] {
      assert t[..|t| - 1] == x + "/" + f[..|f| - 1];
      AfterLastSlashOf(x, f[..|f| - 1]);
      assert f == f[..|f| - 1] + [f[|f| - 1]];
    }
  }

  /** The scalar cells the codec's tests pin: integers and Longs in decimal, booleans, regular expressions. */
  lemma ScalarCellsPinned()
    ensures ScalarText(Number(925000)) == "925000"
    ensures ScalarText(Long(245)) == "245"
    ensures ScalarText(Bool(false)) == "false" && ScalarText(Bool(true)) == "true"
    ensures ScalarText(RegExp("^mongodb", "")) == "/^mongodb/"
    ensures ScalarText(RegExp("^mongodb", "m")) == "/^mongodb/m"
  {
    DecimalCells();
    RegExpCells();
  }

  lemma DecimalCells()
    ensures DecimalText.IntToString(925000) == "925000" && DecimalText.IntToString(245) == "245"
  {
    assert DecimalText.NatToString(92) == "92";
    assert DecimalText.NatToString(9250) == "9250";
    assert DecimalText.NatToString(925000) == "925000";
    assert DecimalText.NatToString(24) == "24";
    assert DecimalText.NatToString(245) == "245";
  }

  lemma RegExpCells()
    ensures RegExpText("^mongodb", "") == "/^mongodb/" && RegExpText("^mongodb", "m") == "/^mongodb/m"
  {
    var r, lit := "/" + "^mongodb" + "/" + "", "/^mongodb/";
    forall i | 0 <= i < |lit| ensures r[i] == lit[i] { }
    var r', lit' := "/" + "^mongodb" + "/" + "m", "/^mongodb/m";
    forall i | 0 <= i < |lit'| ensures r'[i] == lit'[i] { }
  }

  /** A regular expression's cell determines its pattern and flags (flags never hold '/'). */
  lemma RegExpTextInjective(p1: string, f1: string, p2: string, f2: string)
    requires '/' !in f1 && '/' !in f2
    requires RegExpText(p1, f1) == RegExpText(p2, f2)
    ensures p1 == p2 && f1 == f2
  {
    var t := RegExpText(p1, f1);
    AfterLastSlashOf("/" + p1, f1);
    AfterLastSlashOf("/" + p2, f2);
    assert f1 == f2;
    assert t[1..|t| - |f1| - 1] == p1;
    assert RegExpText(p2, f2)[1..|t| - |f2| - 1] == p2;
  }

  // ---------------------------------------------------------------------------
  // The `fromString` readers

  /** `Boolean.fromString`: the narrow case-insensitive grammar; None means "not a boolean". */
  function BooleanFromString(s: string): Option<bool>
  {
    if s == "" || AsciiLower(s) == "false" then Some(false)
    else if AsciiLower(s) == "true" then Some(true)
    else None
  }

  /** `String.fromString(x)`: the text of a scalar, the same text its CSV cell gets. */
  function StringFromString(v: Value): (r: string)
    requires IsScalar(v)
    ensures v.Str? ==> r == v.s
    ensures v.Number? ==> DecimalText.ParseInt(r) == Some(v.n)
  {
    if v.Number? then
      DecimalText.ParsePrintedInt(v.n);
      ScalarText(v)
    else
      ScalarText(v)
  }

  /** `Number.fromString`: integral decimal text only. */
  function NumberFromString(s: string): (r: Option<Value>)
    ensures r.Some? ==> r.value.Number?
    ensures r.Some? <==> DecimalText.ParseInt(s).Some?
  {
    match DecimalText.ParseInt(s)
    case Some(n) => Some(Number(n))
    case None => None
  }

  /** The values the codec's tests pin for `Boolean.fromString`, and the grammar in both directions. */
  lemma BooleanFromStringGrammar(s: string)
    ensures BooleanFromString(s) == Some(true) <==> AsciiLower(s) == "true"
    ensures BooleanFromString(s) == Some(false) <==> s == "" || AsciiLower(s) == "false"
    ensures BooleanFromString("") == Some(false)
    ensures BooleanFromString("false") == Some(false) && BooleanFromString("FALSE") == Some(false)
    ensures BooleanFromString("true") == Some(true) && BooleanFromString("TRUE") == Some(true)
  {
    LowerPinned();
    if AsciiLower(s) == "true" {
      assert AsciiLower(s)[0] != "false"[0];
    }
  }

  lemma LowerPinned()
    ensures AsciiLower("true") == "true" && AsciiLower("TRUE") == "true"
    ensures AsciiLower("false") == "false" && AsciiLower("FALSE") == "false"
  {
    assert AsciiLower("TRUE") == "true" by {
      var r := AsciiLower("TRUE");
      forall i | 0 <= i < 4 ensures r[i] == "true"[i] { }
    }
    assert AsciiLower("FALSE") == "false" by {
      var r := AsciiLower("FALSE");
      forall i | 0 <= i < 5 ensures r[i] == "false"[i] { }
    }
    assert AsciiLower("true") == "true" by {
      var r := AsciiLower("true");
      forall i | 0 <= i < 4 ensures r[i] == "true"[i] { }
    }
    assert AsciiLower("false") == "false" by {
      var r := AsciiLower("false");
      forall i | 0 <= i < 5 ensures r[i] == "false"[i] { }
    }
  }

  /** The cell of a boolean reads back as that boolean. */
  lemma BooleanRoundTrip(b: bool)
    ensures BooleanFromString(ScalarText(Bool(b))) == Some(b)
  {
    BooleanFromStringGrammar(ScalarText(Bool(b)));
  }

  /** The cell of an integral number or Long reads back as that number. */
  lemma NumberRoundTrip(v: Value)
    requires v.Number? || v.Long?
    ensures NumberFromString(ScalarText(v)) == Some(Number(v.n))
  {
    DecimalText.ParsePrintedInt(v.n);
  }

  /** `String.fromString(1)` is "1" and `Number.fromString("1")` is 1. */
  lemma NativeReadersPinned()
    ensures StringFromString(Number(1)) == "1"
    ensures NumberFromString("1") == Some(Number(1))
  {
  }

  // ---------------------------------------------------------------------------
  // Serialize: flattening a document into columns

  /** Prefixes every column key with `name` and a dot. */
  function Prefixed(name: string, cols: seq<Column>): (r: seq<Column>)
    ensures |r| == |cols|
    ensures forall j :: 0 <= j < |cols| ==> r[j] == Column(name + "." + cols[j].key, cols[j].text)
  {
    if cols == [] then [] else [Column(name + "." + cols[0].key, cols[0].text)] + Prefixed(name, cols[1..])
  }

  /** The columns of one entry: dot-path columns for a nested object, otherwise one column. */
  function EntryColumns(e: Entry, blob: Value -> string): seq<Column>
    decreases e
  {
    if IsNested(e.value) then Prefixed(e.key, Columns(e.value.entries, blob))
    else if IsScalar(e.value) then [Column(e.key, ScalarText(e.value))]
    else [Column(e.key, blob(e.value))]
  }

  /** The columns of a document, entry by entry. `blob` is the extended-JSON encoder. */
  function Columns(doc: seq<Entry>, blob: Value -> string): seq<Column>
    decreases doc
  {
    if doc == [] then [] else EntryColumns(doc[0], blob) + Columns(doc[1..], blob)
  }

  /** Writes the columns in order into a flat object; a later column with the same key wins. */
  function ToMap(cols: seq<Column>): map<string, string>
  {
    if cols == [] then map[] else map[cols[0].key := cols[0].text] + ToMap(cols[1..])
  }

  /** `serialize(doc)`: the flat key -> cell-text object written as one CSV row. */
  function Serialize(doc: seq<Entry>, blob: Value -> string): map<string, string>
  {
    ToMap(Columns(doc, blob))
  }

  // ---------------------------------------------------------------------------
  // The reference description of the output keys: leaf paths

  /** `p` is the key path of a leaf of `doc`: a scalar, an array, or an empty object. */
  ghost predicate IsLeafPath(doc: seq<Entry>, p: seq<string>)
    decreases doc
  {
    |p| > 0 && exists i :: 0 <= i < |doc| && doc[i].key == p[0] && IsLeafBelow(doc[i], p[1..])
  }

  ghost predicate IsLeafBelow(e: Entry, rest: seq<string>)
    decreases e
  {
    if IsNested(e.value) then IsLeafPath(e.value.entries, rest) else rest == []
  }

  /** Path segments joined by '.'. */
  function JoinPath(p: seq<string>): string
    requires |p| > 0
  {
    if |p| == 1 then p[0] else p[0] + "." + JoinPath(p[1..])
  }

  lemma {:induction false} ToMapKeys(cols: seq<Column>, k: string)
    ensures k in ToMap(cols) <==> exists j :: 0 <= j < |cols| && cols[j].key == k
  {
    if cols != [] {
      ToMapKeys(cols[1..], k);
      if k in ToMap(cols[1..]) {
        var j :| 0 <= j < |cols| - 1 && cols[1..][j].key == k;
        assert cols[j + 1].key == k;
      }
      if exists j :: 0 <= j < |cols| && cols[j].key == k {
        var j :| 0 <= j < |cols| && cols[j].key == k;
        if j > 0 { assert cols[1..][j - 1].key == k; }
      }
    }
  }

  lemma MapUnionAssociative(x: map<string, string>, y: map<string, string>, z: map<string, string>)
    ensures x + (y + z) == (x + y) + z
  {
  }

  lemma {:induction false} ToMapAppend(a: seq<Column>, b: seq<Column>)
    ensures ToMap(a + b) == ToMap(a) + ToMap(b)
  {
    if a != [] {
      var head := map[a[0].key := a[0].text];
      assert (a + b)[1..] == a[1..] + b;
      assert ToMap(a + b) == head + ToMap(a[1..] + b);
      ToMapAppend(a[1..], b);
      MapUnionAssociative(head, ToMap(a[1..]), ToMap(b));
    } else {
      assert a + b == b;
    }
  }

  lemma {:induction false} EntryColumnIsLeaf(e: Entry, blob: Value -> string, j: int)
    requires 0 <= j < |EntryColumns(e, blob)|
    ensures exists rest :: IsLeafBelow(e, rest) && JoinPath([e.key] + rest) == EntryColumns(e, blob)[j].key
    decreases e
  {
    if IsNested(e.value) {
      var sub := Columns(e.value.entries, blob);
      DocColumnIsLeaf(e.value.entries, blob, j);
      var p :| IsLeafPath(e.value.entries, p) && JoinPath(p) == sub[j].key;
      assert ([e.key] + p)[1..] == p;
      assert IsLeafBelow(e, p) && JoinPath([e.key] + p) == EntryColumns(e, blob)[j].key;
    } else {
      assert IsLeafBelow(e, []) && JoinPath([e.key] + []) == EntryColumns(e, blob)[j].key;
    }
  }

  lemma {:induction false} DocColumnIsLeaf(doc: seq<Entry>, blob: Value -> string, j: int)
    requires 0 <= j < |Columns(doc, blob)|
    ensures exists p :: IsLeafPath(doc, p) && JoinPath(p) == Columns(doc, blob)[j].key
    decreases doc
  {
    var head := EntryColumns(doc[0], blob);
    if j < |head| {
      EntryColumnIsLeaf(doc[0], blob, j);
      var rest :| IsLeafBelow(doc[0], rest) && JoinPath([doc[0].key] + rest) == head[j].key;
      var p := [doc[0].key] + rest;
      assert p[1..] == rest;
      assert IsLeafPath(doc, p);
    } else {
      DocColumnIsLeaf(doc[1..], blob, j - |head|);
      var p :| IsLeafPath(doc[1..], p) && JoinPath(p) == Columns(doc[1..], blob)[j - |head|].key;
      var i :| 0 <= i < |doc[1..]| && doc[1..][i].key == p[0] && IsLeafBelow(doc[1..][i], p[1..]);
      assert doc[i + 1] == doc[1..][i];
      assert IsLeafPath(doc, p);
    }
  }

  lemma {:induction false} LeafBelowHasColumn(e: Entry, blob: Value -> string, rest: seq<string>)
    requires IsLeafBelow(e, rest)
    ensures exists j :: 0 <= j < |EntryColumns(e, blob)| && EntryColumns(e, blob)[j].key == JoinPath([e.key] + rest)
    decreases e
  {
    if IsNested(e.value) {
      LeafPathHasColumn(e.value.entries, blob, rest);
      var sub := Columns(e.value.entries, blob);
      var j :| 0 <= j < |sub| && sub[j].key == JoinPath(rest);
      assert ([e.key] + rest)[1..] == rest;
      assert EntryColumns(e, blob)[j].key == JoinPath([e.key] + rest);
    } else {
      assert EntryColumns(e, blob)[0].key == JoinPath([e.key] + rest);
    }
  }

  lemma {:induction false} LeafPathHasColumn(doc: seq<Entry>, blob: Value -> string, p: seq<string>)
    requires IsLeafPath(doc, p)
    ensures exists j :: 0 <= j < |Columns(doc, blob)| && Columns(doc, blob)[j].key == JoinPath(p)
    decreases doc
  {
    var i :| 0 <= i < |doc| && doc[i].key == p[0] && IsLeafBelow(doc[i], p[1..]);
    var head := EntryColumns(doc[0], blob);
    assert p == [p[0]] + p[1..];
    if i == 0 {
      LeafBelowHasColumn(doc[0], blob, p[1..]);
      var j :| 0 <= j < |head| && head[j].key == JoinPath(p);
      assert Columns(doc, blob)[j] == head[j];
    } else {
      assert doc[1..][i - 1] == doc[i];
      assert IsLeafPath(doc[1..], p);
      LeafPathHasColumn(doc[1..], blob, p);
      var j :| 0 <= j < |Columns(doc[1..], blob)| && Columns(doc[1..], blob)[j].key == JoinPath(p);
      assert Columns(doc, blob)[|head| + j] == Columns(doc[1..], blob)[j];
    }
  }

  /**
   * The output keys are exactly the dot-joined leaf paths of the document:
   * nested plain objects flatten into one key per leaf, top-level scalar keys keep their names.
   */
  lemma KeysAreLeafPaths(doc: seq<Entry>, blob: Value -> string, k: string)
    ensures k in Serialize(doc, blob) <==> exists p :: IsLeafPath(doc, p) && JoinPath(p) == k
  {
    ToMapKeys(Columns(doc, blob), k);
    if k in Serialize(doc, blob) {
      var j :| 0 <= j < |Columns(doc, blob)| && Columns(doc, blob)[j].key == k;
      DocColumnIsLeaf(doc, blob, j);
    }
    if exists p :: IsLeafPath(doc, p) && JoinPath(p) == k {
      var p :| IsLeafPath(doc, p) && JoinPath(p) == k;
      LeafPathHasColumn(doc, blob, p);
    }
  }

  // ---------------------------------------------------------------------------
  // Which entry a column belongs to

  predicate PlainKey(k: string) { '.' !in k }

  /** Top-level keys are distinct and contain no '.', as in the codec's test documents. */
  predicate PlainTopKeys(doc: seq<Entry>)
  {
    && (forall i :: 0 <= i < |doc| ==> PlainKey(doc[i].key))
    && (forall i, j :: 0 <= i < j < |doc| ==> doc[i].key != doc[j].key)
  }

  /** `k` is the key `name` itself or a dot path below it. */
  predicate Owns(name: string, k: string)
  {
    k == name || (|k| > |name| && k[..|name| + 1] == name + ".")
  }

  /** The text before the first '.' of `k` (all of `k` when it has none). */
  function FirstSegment(k: string): string
  {
    if k == "" || k[0] == '.' then "" else [k[0]] + FirstSegment(k[1..])
  }

  lemma {:induction false} OwnsFirstSegment(a: string, k: string)
    requires PlainKey(a) && Owns(a, k)
    ensures FirstSegment(k) == a
  {
    if a != "" {
      assert k[0] == a[0];
      assert Owns(a[1..], k[1..]) by {
        if k != a {
          assert k[1..][..|a[1..]| + 1] == k[..|a| + 1][1..];
          assert (a + ".")[1..] == a[1..] + ".";
        }
      }
      OwnsFirstSegment(a[1..], k[1..]);
      assert a == [a[0]] + a[1..];
    } else if k != "" {
      assert k[0] == (a + ".")[0];
    }
  }

  lemma OwnerUnique(a: string, b: string, k: string)
    requires PlainKey(a) && PlainKey(b) && Owns(a, k) && Owns(b, k)
    ensures a == b
  {
    OwnsFirstSegment(a, k);
    OwnsFirstSegment(b, k);
  }

  lemma {:induction false} EntryColumnsOwned(e: Entry, blob: Value -> string, j: int)
    requires 0 <= j < |EntryColumns(e, blob)|
    ensures Owns(e.key, EntryColumns(e, blob)[j].key)
  {
    if IsNested(e.value) {
      var k := EntryColumns(e, blob)[j].key;
      assert k == e.key + "." + Columns(e.value.entries, blob)[j].key;
      assert k[..|e.key| + 1] == e.key + ".";
    }
  }

  lemma {:induction false} ColumnsOwned(doc: seq<Entry>, blob: Value -> string, k: string)
    requires k in Serialize(doc, blob)
    ensures exists m :: 0 <= m < |doc| && Owns(doc[m].key, k)
    decreases doc
  {
    ToMapKeys(Columns(doc, blob), k);
    ToMapAppend(EntryColumns(doc[0], blob), Columns(doc[1..], blob));
    var head := EntryColumns(doc[0], blob);
    if k in ToMap(head) {
      ToMapKeys(head, k);
      var j :| 0 <= j < |head| && head[j].key == k;
      EntryColumnsOwned(doc[0], blob, j);
    } else {
      assert k in Serialize(doc[1..], blob);
      ColumnsOwned(doc[1..], blob, k);
      var m :| 0 <= m < |doc[1..]| && Owns(doc[1..][m].key, k);
      assert doc[m + 1] == doc[1..][m];
    }
  }

  /** A key belonging to entry `i` gets exactly the cells that entry's own columns give it. */
  lemma {:induction false} EntryOwnsItsColumns(doc: seq<Entry>, blob: Value -> string, i: int, k: string)
    requires PlainTopKeys(doc) && 0 <= i < |doc| && Owns(doc[i].key, k)
    ensures k in Serialize(doc, blob) <==> k in ToMap(EntryColumns(doc[i], blob))
    ensures k in Serialize(doc, blob) ==> Serialize(doc, blob)[k] == ToMap(EntryColumns(doc[i], blob))[k]
    decreases doc
  {
    var head := EntryColumns(doc[0], blob);
    ToMapAppend(head, Columns(doc[1..], blob));
    assert Serialize(doc, blob) == ToMap(head) + Serialize(doc[1..], blob);
    assert PlainTopKeys(doc[1..]) by {
      forall a, b | 0 <= a < b < |doc[1..]| ensures doc[1..][a].key != doc[1..][b].key {
        assert doc[1..][a] == doc[a + 1] && doc[1..][b] == doc[b + 1];
      }
    }
    if i == 0 {
      if k in Serialize(doc[1..], blob) {
        ColumnsOwned(doc[1..], blob, k);
        var m :| 0 <= m < |doc[1..]| && Owns(doc[1..][m].key, k);
        assert doc[1..][m] == doc[m + 1];
        OwnerUnique(doc[0].key, doc[m + 1].key, k);
        assert false;
      }
    } else {
      if k in ToMap(head) {
        ToMapKeys(head, k);
        var j :| 0 <= j < |head| && head[j].key == k;
        EntryColumnsOwned(doc[0], blob, j);
        OwnerUnique(doc[0].key, doc[i].key, k);
        assert false;
      }
      assert doc[1..][i - 1] == doc[i];
      EntryOwnsItsColumns(doc[1..], blob, i - 1, k);
    }
  }

  /** A top-level scalar keeps its key and is written as its scalar text (strings unchanged). */
  lemma ScalarEntryCell(doc: seq<Entry>, blob: Value -> string, i: int)
    requires PlainTopKeys(doc) && 0 <= i < |doc| && IsScalar(doc[i].value)
    ensures doc[i].key in Serialize(doc, blob)
    ensures Serialize(doc, blob)[doc[i].key] == ScalarText(doc[i].value)
    ensures doc[i].value.Str? ==> Serialize(doc, blob)[doc[i].key] == doc[i].value.s
  {
    EntryOwnsItsColumns(doc, blob, i, doc[i].key);
  }

  /** An array gives exactly one column: its key holds the extended-JSON text, and no dot path below it exists. */
  lemma ArrayEntryCell(doc: seq<Entry>, blob: Value -> string, i: int)
    requires PlainTopKeys(doc) && 0 <= i < |doc| && doc[i].value.Array?
    ensures doc[i].key in Serialize(doc, blob)
    ensures Serialize(doc, blob)[doc[i].key] == blob(doc[i].value)
    ensures forall k :: k in Serialize(doc, blob) && Owns(doc[i].key, k) ==> k == doc[i].key
  {
    EntryOwnsItsColumns(doc, blob, i, doc[i].key);
    forall k | k in Serialize(doc, blob) && Owns(doc[i].key, k) ensures k == doc[i].key {
      EntryOwnsItsColumns(doc, blob, i, k);
    }
  }

  lemma {:induction false} ToMapPrefixed(name: string, cols: seq<Column>, q: string)
    ensures (name + "." + q in ToMap(Prefixed(name, cols))) <==> q in ToMap(cols)
    ensures q in ToMap(cols) ==> ToMap(Prefixed(name, cols))[name + "." + q] == ToMap(cols)[q]
  {
    if cols != [] {
      assert Prefixed(name, cols)[1..] == Prefixed(name, cols[1..]);
      ToMapPrefixed(name, cols[1..], q);
      var n := |name| + 1;
      assert (name + "." + q)[n..] == q;
      assert (name + "." + cols[0].key)[n..] == cols[0].key;
    }
  }

  /** A nested plain object flattens recursively: `key.q` holds exactly what `q` holds in the object's own serialization. */
  lemma NestedEntryCells(doc: seq<Entry>, blob: Value -> string, i: int, q: string)
    requires PlainTopKeys(doc) && 0 <= i < |doc| && IsNested(doc[i].value)
    ensures doc[i].key + "." + q in Serialize(doc, blob) <==> q in Serialize(doc[i].value.entries, blob)
    ensures q in Serialize(doc[i].value.entries, blob) ==>
              Serialize(doc, blob)[doc[i].key + "." + q] == Serialize(doc[i].value.entries, blob)[q]
  {
    var k := doc[i].key + "." + q;
    assert k[..|doc[i].key| + 1] == doc[i].key + ".";
    EntryOwnsItsColumns(doc, blob, i, k);
    ToMapPrefixed(doc[i].key, Columns(doc[i].value.entries, blob), q);
  }

  const ActivityDoc: seq<Entry> := [Entry("sleeping", Str("true")), Entry("is", Str("on the couch"))]
  const LocationDoc: seq<Entry> := [Entry("activity", Document(ActivityDoc))]
  const ArloDoc: seq<Entry> := [Entry("_id", Str("arlo")), Entry("name", Str("Arlo")), Entry("location", Document(LocationDoc))]

  lemma ActivityKeys()
    ensures "activity" + "." + "sleeping" == "activity.sleeping"
    ensures "activity" + "." + "is" == "activity.is"
  {
    var r, lit := "activity" + "." + "sleeping", "activity.sleeping";
    forall i | 0 <= i < |lit| ensures r[i] == lit[i] { }
    var r', lit' := "activity" + "." + "is", "activity.is";
    forall i | 0 <= i < |lit'| ensures r'[i] == lit'[i] { }
  }

  lemma LocationKeys()
    ensures "location" + "." + "activity.sleeping" == "location.activity.sleeping"
    ensures "location" + "." + "activity.is" == "location.activity.is"
  {
    var r, lit := "location" + "." + "activity.sleeping", "location.activity.sleeping";
    forall i | 0 <= i < |lit| ensures r[i] == lit[i] { }
    var r', lit' := "location" + "." + "activity.is", "location.activity.is";
    forall i | 0 <= i < |lit'| ensures r'[i] == lit'[i] { }
  }

  lemma ActivityColumns(blob: Value -> string)
    ensures Columns(ActivityDoc, blob) == [Column("sleeping", "true"), Column("is", "on the couch")]
  {
    assert Columns(ActivityDoc[1..], blob) == [Column("is", "on the couch")];
  }

  lemma LocationColumns(blob: Value -> string)
    ensures Columns(LocationDoc, blob) == [Column("activity.sleeping", "true"), Column("activity.is", "on the couch")]
  {
    ActivityColumns(blob);
    ActivityKeys();
    assert Columns(LocationDoc, blob) == EntryColumns(LocationDoc[0], blob) + Columns([], blob);
  }

  lemma LocationEntryColumns(blob: Value -> string)
    ensures EntryColumns(ArloDoc[2], blob)
         == [Column("location.activity.sleeping", "true"), Column("location.activity.is", "on the couch")]
  {
    LocationColumns(blob);
    var e := Entry("location", Document(LocationDoc));
    assert ArloDoc[2] == e;
    assert IsNested(e.value);
    var r := Prefixed("location", Columns(LocationDoc, blob));
    assert EntryColumns(e, blob) == r;
    LocationKeys();
    assert r[0].key == "location" + "." + "activity.sleeping";
    assert r[1].key == "location" + "." + "activity.is";
  }

  lemma ArloColumns(blob: Value -> string)
    ensures Columns(ArloDoc, blob)
         == [Column("_id", "arlo"), Column("name", "Arlo"),
             Column("location.activity.sleeping", "true"), Column("location.activity.is", "on the couch")]
  {
    LocationEntryColumns(blob);
    assert Columns(ArloDoc[2..], blob) == EntryColumns(ArloDoc[2], blob) + Columns([], blob);
    assert Columns(ArloDoc[1..], blob) == EntryColumns(ArloDoc[1], blob) + Columns(ArloDoc[2..], blob);
  }

  /** The row of the plain-object document, as the chain of single-key maps `ToMap` builds. */
  lemma ArloRow(blob: Value -> string)
    ensures Serialize(ArloDoc, blob)
            == map["_id" := "arlo"] + (map["name" := "Arlo"] + (map["location.activity.sleeping" := "true"]
               + map["location.activity.is" := "on the couch"]))
  {
    ArloColumns(blob);
    var cols := Columns(ArloDoc, blob);
    assert ToMap(cols[3..]) == map["location.activity.is" := "on the couch"];
    assert ToMap(cols[2..]) == map["location.activity.sleeping" := "true"] + ToMap(cols[3..]);
    assert ToMap(cols[1..]) == map["name" := "Arlo"] + ToMap(cols[2..]);
  }

  /** The codec test's plain-object document and its dot-notation row. */
  lemma DotNotationExample(blob: Value -> string)
    ensures Serialize(ArloDoc, blob)
            == map["_id" := "arlo", "name" := "Arlo",
                   "location.activity.sleeping" := "true",
                   "location.activity.is" := "on the couch"]
  {
    ArloRow(blob);
  }

  const TransferId: string := "{47844C7F-544C-8986-E050-A8C063056488}"
  const TransferDate: string := "2017-01-13T00:00:00Z"
  const TransferDoc: seq<Entry> :=
    [Entry("_id", Str(TransferId)), Entry("Price", Number(925000)), Entry("Date of Transfer", Str(TransferDate))]

  lemma TransferColumns(blob: Value -> string)
    ensures Columns(TransferDoc, blob)
         == [Column("_id", TransferId), Column("Price", "925000"), Column("Date of Transfer", TransferDate)]
  {
    DecimalCells();
    var cols := [Column("_id", TransferId), Column("Price", "925000"), Column("Date of Transfer", TransferDate)];
    assert Columns(TransferDoc[2..], blob) == [cols[2]];
    assert Columns(TransferDoc[1..], blob) == [cols[1], cols[2]];
  }

  /** The codec test's house-sale row: strings stay as they are, the integral price becomes decimal text. */
  lemma TransferRow(blob: Value -> string)
    ensures Serialize(TransferDoc, blob)
            == map["_id" := TransferId, "Price" := "925000", "Date of Transfer" := TransferDate]
  {
    TransferColumns(blob);
    var cols := Columns(TransferDoc, blob);
    var m2 := map["Date of Transfer" := TransferDate];
    var m1 := map["Price" := "925000"] + m2;
    assert ToMap(cols[2..]) == m2;
    assert ToMap(cols[1..]) == m1;
    assert ToMap(cols) == map["_id" := TransferId] + m1;
  }
}
