/**
 Validation and sanitising of WebSocket messages (internal/realtime/message_validator.go). The parsed
 data is a JSON tree; strings are sequences of Unicode code points, with their UTF-8 length counted
 where the code counts bytes.
 */
module MessageSanitizing {
  import opened Common
  import opened Decimals
  import opened TextCleaning

  datatype Json =
    | Null
    | Bool(value: bool)
    | Number(number: real)
    | Text(text: string)
    | Object(fields: map<string, Json>)
    | Array(items: seq<Json>)

  /** What a Go map of fields is: an object. */
  type Fields = v: Json | v.Object? witness Object(map[])

  datatype Message = Message(kind: string, timestamp: string, data: Option<Fields>)

  datatype Problem =
    | KindMissing
    | KindNotAllowed
    | KindTooLong
    | BadTimestamp
    | KeyTooLong(path: string)
    | KeyInvalid(path: string)
    | ValueTooLong(path: string)
    | TooDeep(path: string)
    | ArrayTooLarge(path: string)
    | OutOfRange(path: string)

  const MAX_KEY_LENGTH := 100
  const MAX_FIELD_LENGTH := 1024
  const MAX_KIND_LENGTH := 50
  const MAX_ITEMS := 100
  const MAX_DOTS := 3
  const MAX_NUMBER: real := 1_000_000_000_000_000.0

  // ---------- Strings ----------

  function Utf8Length(s: string): nat {
    if s == "" then 0
    else Utf8Length(s[..|s| - 1])
         + var c := s[|s| - 1] as int;
           if c < 0x80 then 1 else if c < 0x800 then 2 else if c < 0x1_0000 then 3 else 4
  }

  /** A code point in UTF-8, section 3 of RFC 3629. */
  function Encoded(c: char): seq<int> {
    var n := c as int;
    var high := n / 0x40;
    var higher := high / 0x40;
    if n < 0x80 then [n]
    else if n < 0x800 then [0xC0 + high, 0x80 + n % 0x40]
    else if n < 0x1_0000 then [0xE0 + higher, 0x80 + high % 0x40, 0x80 + n % 0x40]
    else [0xF0 + higher / 0x40, 0x80 + higher % 0x40, 0x80 + high % 0x40, 0x80 + n % 0x40]
  }

  function AllEncoded(s: string): seq<int> {
    if s == "" then [] else AllEncoded(s[..|s| - 1]) + Encoded(s[|s| - 1])
  }

  /** The length that is compared with the limits is that of the encoded text. */
  lemma {:induction false} LengthIsEncoded(s: string)
    ensures Utf8Length(s) == |AllEncoded(s)|
  {
    if s == "" {
    } else {
      LengthIsEncoded(s[..|s| - 1]);
    }
  }

  /** The bits after the marks of a first byte and of the others. */
  function Decoded(b: seq<int>): int
    requires 1 <= |b| <= 4
  {
    if |b| == 1 then b[0]
    else if |b| == 2 then (b[0] - 0xC0) * 0x40 + (b[1] - 0x80)
    else if |b| == 3 then ((b[0] - 0xE0) * 0x40 + (b[1] - 0x80)) * 0x40 + (b[2] - 0x80)
    else (((b[0] - 0xF0) * 0x40 + (b[1] - 0x80)) * 0x40 + (b[2] - 0x80)) * 0x40 + (b[3] - 0x80)
  }

  /** Each code point is read back from its bytes, and they are bytes. */
  lemma EncodedReads(c: char)
    ensures 1 <= |Encoded(c)| <= 4 && Decoded(Encoded(c)) == c as int
    ensures forall i :: 0 <= i < |Encoded(c)| ==> 0 <= Encoded(c)[i] < 0x100
  {}

  // ---------- Validation ----------

  predicate IsValidFieldName(name: string) {
    forall i :: 0 <= i < |name| ==>
      'a' <= name[i] <= 'z' || 'A' <= name[i] <= 'Z' || '0' <= name[i] <= '9' || name[i] == '_' || name[i] == '-'
  }

  /** The code points of digits, letters, the hyphen and the underscore. */
  predicate InNames(n: int) {
    48 <= n < 58 || 65 <= n < 91 || 97 <= n < 123 || n == 45 || n == 95
  }

  lemma NameCharacters(name: string)
    ensures IsValidFieldName(name) <==> forall c :: c in name ==> InNames(c as int)
  {
    assert forall i :: 0 <= i < |name| ==> name[i] in name;
  }

  function Path(prefix: string, key: string): string {
    if prefix == "" then key else prefix + "." + key
  }

  function ItemPath(path: string, i: nat): string {
    path + "[" + Decimal(i) + "]"
  }

  /** Different items have different paths. */
  lemma ItemPathsDiffer(path: string, i: nat, j: nat)
    requires ItemPath(path, i) == ItemPath(path, j)
    ensures i == j
  {
    var a, b := ItemPath(path, i), ItemPath(path, j);
    assert a[|path| + 1..|a| - 1] == Decimal(i) && b[|path| + 1..|b| - 1] == Decimal(j);
    DecimalReads(i);
    DecimalReads(j);
  }

  function Dots(path: string): nat {
    if path == "" then 0 else Dots(path[..|path| - 1]) + if path[|path| - 1] == '.' then 1 else 0
  }

  predicate KeyOk(key: string) {
    Utf8Length(key) <= MAX_KEY_LENGTH && IsValidFieldName(key)
  }

  /** Data fields the validation accepts below a prefix; arrays inside arrays are not looked into. */
  predicate FieldsOk(data: Fields, prefix: string)
    decreases data, 0
  {
    forall k :: k in data.fields ==> KeyOk(k) && ValueOk(data.fields[k], Path(prefix, k))
  }

  predicate ValueOk(v: Json, path: string)
    decreases v, 1
  {
    match v
    case Text(s) => Utf8Length(s) <= MAX_FIELD_LENGTH
    case Object(_) => Dots(path) <= MAX_DOTS && FieldsOk(v, path)
    case Array(items) =>
      |items| <= MAX_ITEMS
      && forall i :: 0 <= i < |items| && items[i].Object? ==> FieldsOk(items[i], ItemPath(path, i))
    case Number(n) => -MAX_NUMBER <= n <= MAX_NUMBER
    case _ => true
  }

  /** The limits in figures: on a key, a text, a number, an array and the dots in an object's path. */
  lemma Limits(v: Json, path: string, key: string)
    ensures KeyOk(key) <==> |AllEncoded(key)| <= 100 && forall c :: c in key ==> InNames(c as int)
    ensures v.Text? ==> (ValueOk(v, path) <==> |AllEncoded(v.text)| <= 1024)
    ensures v.Number? ==> (ValueOk(v, path) <==> -1_000_000_000_000_000.0 <= v.number <= 1_000_000_000_000_000.0)
    ensures v.Array? && ValueOk(v, path) ==> |v.items| <= 100
    ensures v.Array? && |v.items| <= 100 && (forall i :: 0 <= i < |v.items| ==> !v.items[i].Object?) ==>
        ValueOk(v, path)
    ensures v.Object? && ValueOk(v, path) ==> Dots(path) <= 3
    ensures v.Object? && v.fields == map[] && Dots(path) <= 3 ==> ValueOk(v, path)
    ensures v.Null? || v.Bool? ==> ValueOk(v, path)
  {
    NameCharacters(key);
    LengthIsEncoded(key);
    if v.Text? { LengthIsEncoded(v.text); }
  }

  /** `p` is a problem of the field `k`: of its key, or else of its value. */
  ghost predicate KeyProblem(data: Fields, prefix: string, k: string, p: Problem)
    requires k in data.fields
    decreases data, 0
  {
    if Utf8Length(k) > MAX_KEY_LENGTH then p == KeyTooLong(Path(prefix, k))
    else if !IsValidFieldName(k) then p == KeyInvalid(Path(prefix, k))
    else ValueProblem(data.fields[k], Path(prefix, k), p)
  }

  ghost predicate FieldProblem(data: Fields, prefix: string, p: Problem)
    decreases data, 1
  {
    exists k :: k in data.fields && KeyProblem(data, prefix, k, p)
  }

  ghost predicate ValueProblem(v: Json, path: string, p: Problem)
    decreases v, 2
  {
    match v
    case Text(s) => Utf8Length(s) > MAX_FIELD_LENGTH && p == ValueTooLong(path)
    case Object(_) => if Dots(path) > MAX_DOTS then p == TooDeep(path) else FieldProblem(v, path, p)
    case Array(items) =>
      (|items| > MAX_ITEMS && p == ArrayTooLarge(path)) || exists i {:trigger items[i]} ::
        0 <= i < |items| && items[i].Object? && FieldProblem(items[i], ItemPath(path, i), p)
    case Number(n) => (n > MAX_NUMBER || n < -MAX_NUMBER) && p == OutOfRange(path)
    case _ => false
  }

  /** The errors are exactly the problems of the fields, in whatever order the fields are walked. */
  method ValidateDataFields(data: Fields, prefix: string) returns (errors: seq<Problem>)
    ensures forall p :: p in errors <==> FieldProblem(data, prefix, p)
    ensures errors == [] <==> FieldsOk(data, prefix)
    decreases data, 0
  {
    errors := [];
    var left := data.fields.Keys;
    while left != {}
      invariant left <= data.fields.Keys
      invariant forall p :: p in errors <==>
          exists k :: k in data.fields && k !in left && KeyProblem(data, prefix, k, p)
      invariant errors == [] <==>
          forall k :: k in data.fields && k !in left ==> KeyOk(k) && ValueOk(data.fields[k], Path(prefix, k))
      decreases left
    {
      var key :| key in left;
      left := left - {key};
      var fieldPath := key;
      if prefix != "" { fieldPath := prefix + "." + key; }
      if Utf8Length(key) > MAX_KEY_LENGTH {
        errors := errors + [KeyTooLong(fieldPath)];
        continue;
      }
      if !IsValidFieldName(key) {
        errors := errors + [KeyInvalid(fieldPath)];
        continue;
      }
      var found := ValidateValue(data.fields[key], fieldPath);
      assert forall p :: p in found <==> KeyProblem(data, prefix, key, p);
      errors := errors + found;
    }
  }

  method ValidateValue(value: Json, fieldPath: string) returns (errors: seq<Problem>)
    ensures forall p :: p in errors <==> ValueProblem(value, fieldPath, p)
    ensures errors == [] <==> ValueOk(value, fieldPath)
    decreases value, 1
  {
    errors := [];
    match value {
      case Text(s) =>
        if Utf8Length(s) > MAX_FIELD_LENGTH { errors := [ValueTooLong(fieldPath)]; }
      case Object(_) =>
        if Dots(fieldPath) > MAX_DOTS {
          errors := [TooDeep(fieldPath)];
        } else {
          errors := ValidateDataFields(value, fieldPath);
        }
      case Array(items) =>
        errors := ValidateItems(items, fieldPath);
      case Number(n) =>
        if n > MAX_NUMBER || n < -MAX_NUMBER { errors := [OutOfRange(fieldPath)]; }
      case _ =>
    }
  }

  method ValidateItems(items: seq<Json>, fieldPath: string) returns (errors: seq<Problem>)
    ensures forall p :: p in errors <==>
              (|items| > MAX_ITEMS && p == ArrayTooLarge(fieldPath)) || exists i {:trigger items[i]} ::
                0 <= i < |items| && items[i].Object? && FieldProblem(items[i], ItemPath(fieldPath, i), p)
    ensures errors == [] <==> ValueOk(Array(items), fieldPath)
    decreases items, 1
  {
    hide FieldProblem, FieldsOk, ItemPath;
    errors := if |items| > MAX_ITEMS then [ArrayTooLarge(fieldPath)] else [];
    for i := 0 to |items|
      invariant forall p :: p in errors <==>
                  (|items| > MAX_ITEMS && p == ArrayTooLarge(fieldPath)) || exists j {:trigger items[j]} ::
                    0 <= j < i && items[j].Object? && FieldProblem(items[j], ItemPath(fieldPath, j), p)
      invariant errors == [] <==>
        (|items| <= MAX_ITEMS
         && forall j :: 0 <= j < i && items[j].Object? ==> FieldsOk(items[j], ItemPath(fieldPath, j)))
    {
      var found := ValidateItem(items[i], ItemPath(fieldPath, i));
      errors := errors + found;
    }
  }

  method ValidateItem(item: Json, itemPath: string) returns (errors: seq<Problem>)
    ensures forall p :: p in errors <==> item.Object? && FieldProblem(item, itemPath, p)
    ensures errors == [] <==> (item.Object? ==> FieldsOk(item, itemPath))
    decreases item, 1
  {
    errors := [];
    if item.Object? { errors := ValidateDataFields(item, itemPath); }
  }

  // ---------- Sanitising ----------

  /** What sanitising may give for fields, in whatever order they are walked: two keys can be cleaned to
      the same one, and then either value may remain. */
  ghost predicate FieldsTo(data: Fields, r: Fields)
    decreases data, 0
  {
    && (forall k :: k in data.fields ==> Cleaned(k) in r.fields)
    && forall c :: c in r.fields ==>
         exists k :: k in data.fields && Cleaned(k) == c && ValueTo(data.fields[k], r.fields[c])
  }

  ghost predicate ValueTo(v: Json, r: Json)
    decreases v, 1
  {
    match v
    case Text(s) => r == Text(Cleaned(s))
    case Object(_) => r.Object? && FieldsTo(v, r)
    case Array(items) => r.Array? && ItemsTo(items, r.items)
    case _ => r == v
  }

  /** An array directly inside an array is left as it is. */
  ghost predicate ItemsTo(items: seq<Json>, r: seq<Json>) {
    && |r| == |items|
    && forall i :: 0 <= i < |items| ==> ItemTo(items[i], r[i])
  }

  ghost predicate ItemTo(item: Json, r: Json)
    decreases item, 2
  {
    if item.Array? then r == item else ValueTo(item, r)
  }

  method SanitizeDataFields(data: Fields) returns (sanitized: Fields)
    ensures FieldsTo(data, sanitized)
    decreases data, 0
  {
    var fields := map[];
    var left := data.fields.Keys;
    while left != {}
      invariant left <= data.fields.Keys
      invariant forall k :: k in data.fields && k !in left ==> Cleaned(k) in fields
      invariant forall c :: c in fields ==>
                  exists k :: k in data.fields && Cleaned(k) == c && ValueTo(data.fields[k], fields[c])
      decreases left
    {
      var key :| key in left;
      left := left - {key};
      var sanitizedKey := SanitizeString(key);
      var value := SanitizeValue(data.fields[key]);
      fields := fields[sanitizedKey := value];
    }
    sanitized := Object(fields);
  }

  method SanitizeValue(v: Json) returns (r: Json)
    ensures ValueTo(v, r)
    decreases v, 1
  {
    match v {
      case Text(s) =>
        var cleaned := SanitizeString(s);
        r := Text(cleaned);
      case Object(_) => r := SanitizeDataFields(v);
      case Array(items) =>
        var sanitized := SanitizeArray(items);
        r := Array(sanitized);
      case _ => r := v;
    }
  }

  method SanitizeArray(arr: seq<Json>) returns (sanitized: seq<Json>)
    ensures ItemsTo(arr, sanitized)
    decreases arr, 0
  {
    sanitized := [];
    for i := 0 to |arr|
      invariant |sanitized| == i
      invariant forall j :: 0 <= j < i ==> ItemTo(arr[j], sanitized[j])
    {
      if arr[i].Array? {
        sanitized := sanitized + [arr[i]];
      } else {
        var item := SanitizeValue(arr[i]);
        sanitized := sanitized + [item];
      }
    }
  }

  // ---------- What sanitised data is free of ----------

  predicate Printable(s: string) {
    forall i :: 0 <= i < |s| ==> s[i] as int >= 32 || s[i] in "\t\n\r"
  }

  /** No key and no text holds a control character, except in arrays directly inside arrays. */
  predicate AllPrintable(v: Json) {
    match v
    case Text(s) => Printable(s)
    case Object(fields) => forall k :: k in fields ==> Printable(k) && AllPrintable(fields[k])
    case Array(items) => forall i :: 0 <= i < |items| && !items[i].Array? ==> AllPrintable(items[i])
    case _ => true
  }

  lemma CleanedIsPrintable(s: string)
    ensures Printable(Cleaned(s))
  {
    NoControlsLeft(s);
    ControlsInFull();
  }

  /** Sanitising leaves none, validated or not. */
  lemma {:induction false} SanitizedIsPrintable(data: Fields, r: Fields)
    requires FieldsTo(data, r)
    ensures AllPrintable(r)
    decreases data, 0
  {
    forall c | c in r.fields ensures Printable(c) && AllPrintable(r.fields[c]) {
      var k :| k in data.fields && Cleaned(k) == c && ValueTo(data.fields[k], r.fields[c]);
      CleanedIsPrintable(k);
      ValueIsPrintable(data.fields[k], r.fields[c]);
    }
  }

  lemma {:induction false} ValueIsPrintable(v: Json, r: Json)
    requires ValueTo(v, r)
    ensures AllPrintable(r)
    decreases v, 1
  {
    match v
    case Text(s) => CleanedIsPrintable(s);
    case Object(_) => SanitizedIsPrintable(v, r);
    case Array(items) =>
      forall i | 0 <= i < |items| && !r.items[i].Array? ensures AllPrintable(r.items[i]) {
        assert ItemTo(items[i], r.items[i]);
        ValueIsPrintable(items[i], r.items[i]);
      }
    case _ =>
  }

  // ---------- What validated data keeps ----------

  /** Same keys, same array lengths and same other values at every level; only the contents of strings
      may differ, and then as sanitising gives them. */
  predicate KeepsShape(v: Json, r: Json) {
    match v
    case Text(s) => r == Text(Cleaned(s))
    case Object(fields) =>
      r.Object? && r.fields.Keys == fields.Keys && forall k :: k in fields ==> KeepsShape(fields[k], r.fields[k])
    case Array(items) =>
      r.Array? && |r.items| == |items|
      && forall i :: 0 <= i < |items| ==>
           if items[i].Array? then r.items[i] == items[i] else KeepsShape(items[i], r.items[i])
    case _ => r == v
  }

  lemma ValidKeysAreKept(key: string)
    requires KeyOk(key)
    ensures Cleaned(key) == key
  {
    PlainStringsAreKept(key);
  }

  lemma KeysAreKept(data: Fields, r: Fields, prefix: string)
    requires FieldsOk(data, prefix) && FieldsTo(data, r)
    ensures r.fields.Keys == data.fields.Keys
    ensures forall k :: k in data.fields ==> ValueTo(data.fields[k], r.fields[k])
  {
    hide Cleaned, KeyOk, ValueOk, ValueTo;
    forall k | k in data.fields ensures Cleaned(k) == k {
      ValidKeysAreKept(k);
    }
    assert forall k :: k in data.fields ==> k in r.fields;
    assert forall c :: c in r.fields ==> c in data.fields;
  }

  lemma ObjectKeepsShape(data: Fields, r: Fields)
    requires r.fields.Keys == data.fields.Keys
    requires forall k :: k in data.fields ==> KeepsShape(data.fields[k], r.fields[k])
    ensures KeepsShape(data, r)
  {}

  lemma FieldOk(data: Fields, prefix: string, k: string)
    requires FieldsOk(data, prefix) && k in data.fields
    ensures ValueOk(data.fields[k], Path(prefix, k))
  {}

  lemma {:induction false} FieldsKeepShape(data: Fields, r: Fields, prefix: string)
    requires FieldsOk(data, prefix) && FieldsTo(data, r)
    ensures KeepsShape(data, r)
    decreases data, 0
  {
    hide *;
    KeysAreKept(data, r, prefix);
    forall k | k in data.fields ensures KeepsShape(data.fields[k], r.fields[k]) {
      FieldOk(data, prefix, k);
      ValueKeepsShape(data.fields[k], r.fields[k], Path(prefix, k));
    }
    ObjectKeepsShape(data, r);
  }

  /** What the cases of a value, and of an item, come to. */
  lemma Unfolded(v: Json, r: Json, path: string)
    requires ValueOk(v, path) && ValueTo(v, r)
    ensures v.Object? ==> r.Object? && FieldsOk(v, path) && FieldsTo(v, r)
    ensures !v.Object? && !v.Array? ==> KeepsShape(v, r)
    ensures v.Array? ==> r.Array? && |r.items| == |v.items| && forall i :: 0 <= i < |v.items| ==>
        ItemTo(v.items[i], r.items[i])
  {}

  lemma ItemUnfolded(items: seq<Json>, i: nat, r: Json, path: string)
    requires i < |items| && !items[i].Array? && ItemTo(items[i], r) && ValueOk(Array(items), path)
    ensures items[i].Object? ==> r.Object? && FieldsOk(items[i], ItemPath(path, i)) && FieldsTo(items[i], r)
    ensures !items[i].Object? ==> KeepsShape(items[i], r)
  {
    assert ValueTo(items[i], r);
  }

  lemma {:induction false} ValueKeepsShape(v: Json, r: Json, path: string)
    requires ValueOk(v, path) && ValueTo(v, r)
    ensures KeepsShape(v, r)
    decreases v, 1
  {
    Unfolded(v, r, path);
    hide Cleaned, ValueTo, FieldsTo, FieldsOk, ValueOk, ItemTo;
    if v.Object? {
      FieldsKeepShape(v, r, path);
    } else if v.Array? {
      forall i | 0 <= i < |v.items| && !v.items[i].Array? ensures KeepsShape(v.items[i], r.items[i]) {
        ItemUnfolded(v.items, i, r.items[i], path);
        if v.items[i].Object? { FieldsKeepShape(v.items[i], r.items[i], ItemPath(path, i)); }
      }
      NestedArraysAreKept(v.items, r.items);
    }
  }

  lemma NestedArraysAreKept(items: seq<Json>, r: seq<Json>)
    requires |r| == |items| && forall i :: 0 <= i < |items| ==> ItemTo(items[i], r[i])
    ensures forall i :: 0 <= i < |items| && items[i].Array? ==> r[i] == items[i]
  {}

  lemma ControlIsStripped(key: string, control: char)
    requires KeyOk(key) && IsControl(control)
    ensures Cleaned(key + [control]) == key && !IsValidFieldName(key + [control])
  {
    ValidKeysAreKept(key);
    assert (key + [control])[..|key|] == key;
    assert Stripped(key + [control]) == Stripped(key);
    assert (key + [control])[|key|] == control;
  }

  /** Without the validation a key can be lost: two keys that differ only in a control character are
      cleaned to the same one. */
  lemma UnvalidatedKeysCanCollide(key: string, control: char, data: Fields, r: Fields)
    requires KeyOk(key) && IsControl(control)
    requires data.fields.Keys == {key, key + [control]} && FieldsTo(data, r)
    ensures !FieldsOk(data, "")
    ensures r.fields.Keys == {key}
  {
    hide ValueTo, ValueOk, Cleaned;
    ControlIsStripped(key, control);
    ValidKeysAreKept(key);
    assert key in data.fields && key + [control] in data.fields;
  }

  // ---------- Whole messages ----------

  predicate StructureOk(m: Message, allowed: set<string>, timestampParses: bool) {
    && m.kind != "" && m.kind in allowed && Utf8Length(m.kind) <= MAX_KIND_LENGTH
    && (m.timestamp != "" ==> timestampParses)
    && (m.data.Some? ==> FieldsOk(m.data.value, ""))
  }

  ghost predicate StructureProblem(m: Message, allowed: set<string>, timestampParses: bool, p: Problem) {
    match p
    case KindMissing => m.kind == ""
    case KindNotAllowed => m.kind != "" && m.kind !in allowed
    case KindTooLong => Utf8Length(m.kind) > MAX_KIND_LENGTH
    case BadTimestamp => m.timestamp != "" && !timestampParses
    case _ => m.data.Some? && FieldProblem(m.data.value, "", p)
  }

  lemma {:induction false} FieldProblemsArePathed(v: Json, path: string, p: Problem)
    requires ValueProblem(v, path, p)
    ensures !p.KindMissing? && !p.KindNotAllowed? && !p.KindTooLong? && !p.BadTimestamp?
    decreases v, 1
  {
    match v
    case Object(_) =>
      if Dots(path) <= MAX_DOTS { FieldsArePathed(v, path, p); }
    case Array(items) =>
      if i: nat :| i < |items| && items[i].Object? && FieldProblem(items[i], ItemPath(path, i), p) {
        FieldsArePathed(items[i], ItemPath(path, i), p);
      }
    case _ =>
  }

  lemma {:induction false} FieldsArePathed(data: Fields, prefix: string, p: Problem)
    requires FieldProblem(data, prefix, p)
    ensures !p.KindMissing? && !p.KindNotAllowed? && !p.KindTooLong? && !p.BadTimestamp?
    decreases data, 0
  {
    var k :| k in data.fields && KeyProblem(data, prefix, k, p);
    if KeyOk(k) { FieldProblemsArePathed(data.fields[k], Path(prefix, k), p); }
  }

  /** What a message needs besides acceptable data. */
  lemma KindAndTime(m: Message, allowed: set<string>, timestampParses: bool)
    ensures StructureOk(m, allowed, timestampParses) <==>
            && 1 <= |AllEncoded(m.kind)| <= 50 && m.kind in allowed && (timestampParses || |m.timestamp| == 0)
            && (m.data == None || StructureOk(Message("k", "", m.data), {"k"}, false))
  {
    LengthIsEncoded(m.kind);
    LengthIsEncoded("k");
    EncodedText(m.kind);
    EncodedText("k");
    assert Utf8Length("k") == 1 by { assert "k"[..0] == ""; }
  }

  lemma {:induction false} EncodedText(s: string)
    ensures AllEncoded(s) == [] <==> s == ""
  {
    if s != "" { EncodedReads(s[|s| - 1]); }
  }

  class MessageValidator {
    var allowedTypes: set<string>

    constructor ()
      ensures allowedTypes == {"ping", "pong", "chore_updated", "chore_completed", "chore_skipped", "user_joined",
                               "user_left", "circle_updated", "notification", "heartbeat"}
    {
      allowedTypes := {"ping", "pong", "chore_updated", "chore_completed", "chore_skipped", "user_joined",
                       "user_left", "circle_updated", "notification", "heartbeat"};
    }

    method AddAllowedMessageType(messageType: string)
      modifies this
      ensures allowedTypes == old(allowedTypes) + {messageType}
    {
      allowedTypes := allowedTypes + {messageType};
    }

    method RemoveAllowedMessageType(messageType: string)
      modifies this
      ensures allowedTypes == old(allowedTypes) - {messageType}
    {
      allowedTypes := allowedTypes - {messageType};
    }

    method ValidateMessageStructure(message: Message, timestampParses: bool) returns (errors: seq<Problem>)
      ensures errors == [] <==> StructureOk(message, allowedTypes, timestampParses)
      ensures forall p :: p in errors <==> StructureProblem(message, allowedTypes, timestampParses, p)
    {
      hide FieldProblem, FieldsOk;
      errors := [];
      if message.kind == "" {
        errors := errors + [KindMissing];
      } else if message.kind !in allowedTypes {
        errors := errors + [KindNotAllowed];
      }
      if Utf8Length(message.kind) > MAX_KIND_LENGTH { errors := errors + [KindTooLong]; }
      if message.timestamp != "" {
        if !timestampParses { errors := errors + [BadTimestamp]; }
      }
      if message.data.Some? {
        var dataErrors := ValidateDataFields(message.data.value, "");
        forall p | p in dataErrors
          ensures !p.KindMissing? && !p.KindNotAllowed? && !p.KindTooLong? && !p.BadTimestamp?
        {
          FieldsArePathed(message.data.value, "", p);
        }
        errors := errors + dataErrors;
      }
    }

    /** A parsed message is accepted exactly when its structure is in order, and what is handed on then
        has the timestamp, and the data in all but the contents of its strings. */
    method ValidateMessage(message: Message, timestampParses: bool) returns (sanitized: Option<Message>)
      ensures sanitized.Some? <==> StructureOk(message, allowedTypes, timestampParses)
      ensures sanitized.Some? ==>
                && sanitized.value.kind == Cleaned(message.kind) && sanitized.value.timestamp == message.timestamp
                && sanitized.value.data.Some?
                && KeepsShape(if message.data.Some? then message.data.value else Object(map[]),
                              sanitized.value.data.value)
    {
      var errors := ValidateMessageStructure(message, timestampParses);
      if errors != [] { return None; }
      var kind := SanitizeString(message.kind);
      var data: Fields := Object(map[]);
      if message.data.Some? {
        data := SanitizeDataFields(message.data.value);
        FieldsKeepShape(message.data.value, data, "");
      }
      sanitized := Some(Message(kind, message.timestamp, Some(data)));
    }
  }
}
