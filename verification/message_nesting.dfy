/**
 How deep the validation of message data lets objects nest (internal/realtime/message_validator.go).
 The code compares the number of dots in a field's path with a limit, and does so only for an object
 that is itself the value of a field.
 */
module MessageNesting {
  import opened Common
  import opened Decimals
  import opened MessageSanitizing

  /** One step into nested data: to the object under a key, or to an object in the array under it. */
  datatype Hop = Hop(key: string, item: Option<nat>)

  predicate Reaches(data: Fields, hop: Hop) {
    && hop.key in data.fields
    && var v := data.fields[hop.key];
       match hop.item
       case None => v.Object?
       case Some(i) => v.Array? && i < |v.items| && v.items[i].Object?
  }

  function Inner(data: Fields, hop: Hop): Fields
    requires Reaches(data, hop)
  {
    match hop.item
    case None => data.fields[hop.key]
    case Some(i) => data.fields[hop.key].items[i]
  }

  /** The hops lead through the data to an object that is the value of a field. */
  predicate Leads(data: Fields, hops: seq<Hop>) {
    && hops != [] && Reaches(data, hops[0])
    && if |hops| == 1 then hops[0].item.None? else Leads(Inner(data, hops[0]), hops[1..])
  }

  /** A hop that leaves an empty path empty. */
  predicate Silent(hop: Hop) {
    hop.key == "" && hop.item.None?
  }

  /** The silent hops at the front, the last hop never counting as one. */
  function LeadingSilent(hops: seq<Hop>): nat {
    if |hops| <= 1 || !Silent(hops[0]) then 0 else 1 + LeadingSilent(hops[1..])
  }

  /** Everything the validation asks for except the limit on nesting. */
  predicate FieldsFit(data: Fields)
    decreases data, 0
  {
    forall k :: k in data.fields ==> KeyOk(k) && ValueFits(data.fields[k])
  }

  predicate ValueFits(v: Json)
    decreases v, 1
  {
    match v
    case Text(s) => Utf8Length(s) <= MAX_FIELD_LENGTH
    case Object(_) => FieldsFit(v)
    case Array(items) => |items| <= MAX_ITEMS && forall i :: 0 <= i < |items| && items[i].Object? ==>
      FieldsFit(items[i])
    case Number(n) => -MAX_NUMBER <= n <= MAX_NUMBER
    case _ => true
  }

  // ---------- Dots in paths ----------

  lemma {:induction false} DotsAdd(a: string, b: string)
    ensures Dots(a + b) == Dots(a) + Dots(b)
  {
    if b == "" {
      assert a + b == a;
    } else {
      DotsAdd(a, b[..|b| - 1]);
      assert (a + b)[..|a + b| - 1] == a + b[..|b| - 1];
    }
  }

  lemma {:induction false} NoDots(s: string)
    requires '.' !in s
    ensures Dots(s) == 0
  {
    if s == "" {
    } else {
      NoDots(s[..|s| - 1]);
    }
  }

  lemma DecimalHasNoDots(n: nat)
    ensures '.' !in Decimal(n)
  {
    DecimalReads(n);
  }

  /** The dots of a prefix, and one less than none for the empty one: either way a key adds one. */
  function Level(prefix: string): int {
    if prefix == "" then -1 else Dots(prefix)
  }

  lemma KeyAddsOne(prefix: string, key: string)
    requires KeyOk(key)
    ensures Dots(Path(prefix, key)) == Level(prefix) + 1
  {
    assert '.' !in key;
    NoDots(key);
    if prefix != "" {
      DotsAdd(prefix + ".", key);
      DotsAdd(prefix, ".");
      assert "."[..0] == "" && Dots(".") == 1;
    }
  }

  lemma ItemAddsNone(path: string, i: nat)
    ensures Dots(ItemPath(path, i)) == Dots(path) && ItemPath(path, i) != ""
  {
    DecimalHasNoDots(i);
    NoDots("[" + Decimal(i) + "]");
    DotsAdd(path, "[" + Decimal(i) + "]");
    assert ItemPath(path, i) == path + ("[" + Decimal(i) + "]");
  }

  // ---------- The limit ----------

  function PathOf(prefix: string, hop: Hop): string {
    match hop.item
    case None => Path(prefix, hop.key)
    case Some(i) => ItemPath(Path(prefix, hop.key), i)
  }

  lemma LevelOfPath(prefix: string, hop: Hop)
    requires KeyOk(hop.key)
    ensures Level(PathOf(prefix, hop)) == if prefix == "" && Silent(hop) then -1 else Level(prefix) + 1
  {
    KeyAddsOne(prefix, hop.key);
    if hop.item.Some? { ItemAddsNone(Path(prefix, hop.key), hop.item.value); }
  }

  /** The dots in the path of the last of the hops, from a prefix of the given level. */
  function LevelAt(level: int, hops: seq<Hop>): int
    requires hops != []
    decreases |hops|
  {
    if |hops| == 1 then level + 1
    else LevelAt(if level < 0 && Silent(hops[0]) then -1 else level + 1, hops[1..])
  }

  lemma {:induction false} LevelFromTop(level: int, hops: seq<Hop>)
    requires hops != [] && -1 <= level
    ensures LevelAt(level, hops) == level + |hops| - if level < 0 then LeadingSilent(hops) else 0
    decreases |hops|
  {
    if |hops| == 1 {
    } else {
      LevelFromTop(if level < 0 && Silent(hops[0]) then -1 else level + 1, hops[1..]);
    }
  }

  lemma {:induction false} AcceptedFits(data: Fields, prefix: string)
    requires FieldsOk(data, prefix)
    ensures FieldsFit(data)
    decreases data, 0
  {
    forall k | k in data.fields ensures KeyOk(k) && ValueFits(data.fields[k]) {
      AcceptedValueFits(data.fields[k], Path(prefix, k));
    }
  }

  lemma {:induction false} AcceptedValueFits(v: Json, path: string)
    requires ValueOk(v, path)
    ensures ValueFits(v)
    decreases v, 1
  {
    match v
    case Object(_) => AcceptedFits(v, path);
    case Array(items) =>
      forall i | 0 <= i < |items| && items[i].Object? ensures FieldsFit(items[i]) {
        AcceptedFits(items[i], ItemPath(path, i));
      }
    case _ =>
  }

  lemma HopAccepted(data: Fields, prefix: string, hop: Hop)
    requires FieldsOk(data, prefix) && Reaches(data, hop)
    ensures KeyOk(hop.key) && FieldsOk(Inner(data, hop), PathOf(prefix, hop))
    ensures hop.item.None? ==> Dots(Path(prefix, hop.key)) <= MAX_DOTS
  {
    assert ValueOk(data.fields[hop.key], Path(prefix, hop.key));
  }

  lemma {:induction false} AcceptedIsShallow(data: Fields, prefix: string, hops: seq<Hop>)
    requires FieldsOk(data, prefix) && Leads(data, hops)
    ensures LevelAt(Level(prefix), hops) <= MAX_DOTS
    decreases |hops|
  {
    HopAccepted(data, prefix, hops[0]);
    if |hops| == 1 {
      KeyAddsOne(prefix, hops[0].key);
    } else {
      AcceptedIsShallow(Inner(data, hops[0]), PathOf(prefix, hops[0]), hops[1..]);
      LevelOfPath(prefix, hops[0]);
    }
  }

  lemma Prepended(data: Fields, prefix: string, hop: Hop, inner: seq<Hop>) returns (hops: seq<Hop>)
    requires Reaches(data, hop) && KeyOk(hop.key) && Leads(Inner(data, hop), inner)
    requires LevelAt(Level(PathOf(prefix, hop)), inner) > MAX_DOTS
    ensures Leads(data, hops) && LevelAt(Level(prefix), hops) > MAX_DOTS
  {
    hops := [hop] + inner;
    assert hops[1..] == inner;
    LevelOfPath(prefix, hop);
  }

  /** Data that fits and is refused all the same holds a field with an object too deep in. */
  lemma {:induction false} RefusedIsDeep(data: Fields, prefix: string) returns (hops: seq<Hop>)
    requires FieldsFit(data) && !FieldsOk(data, prefix)
    ensures Leads(data, hops) && LevelAt(Level(prefix), hops) > MAX_DOTS
    decreases data
  {
    var k :| k in data.fields && !(KeyOk(k) && ValueOk(data.fields[k], Path(prefix, k)));
    var v, path := data.fields[k], Path(prefix, k);
    assert KeyOk(k) && ValueFits(v);
    KeyAddsOne(prefix, k);
    if v.Object? {
      var hop := Hop(k, None);
      if Dots(path) > MAX_DOTS {
        hops := [hop];
      } else {
        var inner := RefusedIsDeep(v, path);
        hops := Prepended(data, prefix, hop, inner);
      }
    } else {
      var i: nat :| i < |v.items| && v.items[i].Object? && !FieldsOk(v.items[i], ItemPath(path, i));
      var inner := RefusedIsDeep(v.items[i], ItemPath(path, i));
      hops := Prepended(data, prefix, Hop(k, Some(i)), inner);
    }
  }

  /** Exactly what the nesting limit limits, in any data: on the way to an object that is the value of a
      field at most four hops follow the silent ones at the front, where a hop goes through one key and
      perhaps an array. No limit applies on the way to an object in an array. */
  lemma NestingLimit(data: Fields)
    ensures FieldsOk(data, "") <==>
            FieldsFit(data) && forall hops :: Leads(data, hops) ==> |hops| - LeadingSilent(hops) <= MAX_DOTS + 1
  {
    if FieldsOk(data, "") {
      AcceptedFits(data, "");
      forall hops | Leads(data, hops) ensures |hops| - LeadingSilent(hops) <= MAX_DOTS + 1 {
        AcceptedIsShallow(data, "", hops);
        LevelFromTop(-1, hops);
      }
    } else if FieldsFit(data) {
      var hops := RefusedIsDeep(data, "");
      LevelFromTop(-1, hops);
    }
  }

  // ---------- Depth without a limit ----------

  /** `n` objects, each alone in an array that is a field of the one around it. */
  function ThroughArrays(key: string, n: nat): Fields {
    if n == 0 then Object(map[]) else Object(map[key := Array([ThroughArrays(key, n - 1)])])
  }

  /** `n` objects, each the value of a field with an empty key. */
  function UnderEmptyKeys(n: nat): Fields {
    if n == 0 then Object(map[]) else Object(map["" := UnderEmptyKeys(n - 1)])
  }

  /** Under any valid key objects nest through arrays to any depth. */
  lemma {:induction false} ArraysNestFreely(key: string, n: nat, prefix: string)
    requires KeyOk(key)
    ensures FieldsOk(ThroughArrays(key, n), prefix)
  {
    if n == 0 {
    } else {
      ArraysNestFreely(key, n - 1, ItemPath(Path(prefix, key), 0));
    }
  }

  /** At the top, so they do under empty keys. */
  lemma {:induction false} EmptyKeysNestFreely(n: nat)
    ensures FieldsOk(UnderEmptyKeys(n), "")
  {
    if n == 0 {
    } else {
      EmptyKeysNestFreely(n - 1);
    }
  }
}
