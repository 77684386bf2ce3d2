/** The per-person storage passwords (`crates/app/admin/src/device_password.rs`): a file
    that is read whole on every question and rewritten whole on every change, and that
    counts as empty when any of it is malformed. The text of the JSON document is not
    modelled; its value is. */
module DevicePasswords {
  import opened Bytes
  import Wire = DeskWire
  import Auth = DavAuth

  const MAX_ENTRIES := 32
  const MIN_PASSWORD_LENGTH := 16

  /** Which texts are names of people, which are stored hashes, and which hash
      matches which password. */
  datatype Rules = Rules(isName: string -> bool, isHash: string -> bool, matches: (string, string) -> bool)

  datatype Json =
    | Null
    | Boolean(bool)
    | Number(value: real)
    | Text(text: string)
    | Items(items: seq<Json>)
    | Fields(fields: map<string, Json>)

  function Get(j: Json, key: string): Option<Json>
  {
    if j.Fields? && key in j.fields then Some(j.fields[key]) else None
  }

  function AsText(j: Option<Json>): Option<string>
  {
    if j.Some? && j.value.Text? then Some(j.value.text) else None
  }

  /** A whole number that is not negative, cast into 64 bits. */
  function AsU64(j: Option<Json>): Option<nat>
  {
    if j.Some? && j.value.Number? && j.value.value >= 0.0 && j.value.value.Floor as real == j.value.value then
      var n: nat := j.value.value.Floor;
      Some(if n < Wire.U64 then n else Wire.U64 - 1)
    else None
  }

  datatype Entry = Entry(name: string, hash: string, setUnix: nat)

  // ---- the document ----

  function ItemOf(e: Entry): Json
  {
    Fields(map["name" := Text(e.name), "hash" := Text(e.hash), "setUnix" := Number(Wire.Rounded(e.setUnix) as real)])
  }

  function ItemsOf(entries: seq<Entry>): (items: seq<Json>)
    ensures |items| == |entries|
  {
    if entries == [] then [] else ItemsOf(entries[..|entries| - 1]) + [ItemOf(entries[|entries| - 1])]
  }

  function ToJson(entries: seq<Entry>): Json
  {
    Fields(map["devicePasswords" := Items(ItemsOf(entries))])
  }

  predicate Names(entries: seq<Entry>, name: string)
  {
    exists k :: 0 <= k < |entries| && entries[k].name == name
  }

  /** One item, after those before it. */
  function ParseItem(rules: Rules, item: Json, before: seq<Entry>): Option<Entry>
  {
    var name, hash, setUnix := AsText(Get(item, "name")), AsText(Get(item, "hash")), AsU64(Get(item, "setUnix"));
    if name == None || !rules.isName(name.value) || Names(before, name.value) then None
    else if hash == None || !rules.isHash(hash.value) || setUnix == None then None
    else Some(Entry(name.value, hash.value, setUnix.value))
  }

  function ParseItems(rules: Rules, items: seq<Json>): Option<seq<Entry>>
  {
    if items == [] then Some([])
    else
      var before := ParseItems(rules, items[..|items| - 1]);
      if before == None then None
      else
        var e := ParseItem(rules, items[|items| - 1], before.value);
        if e == None then None else Some(before.value + [e.value])
  }

  function Parse(rules: Rules, doc: Json): Option<seq<Entry>>
  {
    var items := Get(doc, "devicePasswords");
    if items == None || !items.value.Items? || |items.value.items| > MAX_ENTRIES then None
    else ParseItems(rules, items.value.items)
  }

  /** The whole document or nothing: a loop over the items that gives up at the first
      one it does not understand. */
  method ParseDocument(rules: Rules, doc: Json) returns (r: Option<seq<Entry>>)
    ensures r == Parse(rules, doc)
  {
    var found := Get(doc, "devicePasswords");
    if found == None || !found.value.Items? {
      return None;
    }
    var items := found.value.items;
    if |items| > MAX_ENTRIES {
      return None;
    }
    var entries: seq<Entry> := [];
    for k := 0 to |items|
      invariant ParseItems(rules, items[..k]) == Some(entries)
    {
      assert items[..k + 1][..k] == items[..k];
      var e := ParseItem(rules, items[k], entries);
      if e == None {
        Refused(rules, items, k + 1);
        return None;
      }
      entries := entries + [e.value];
    }
    assert items[..|items|] == items;
    r := Some(entries);
  }

  /** Once an item is refused, so is every longer document. */
  lemma {:induction false} Refused(rules: Rules, items: seq<Json>, k: nat)
    requires k <= |items| && ParseItems(rules, items[..k]) == None
    ensures ParseItems(rules, items) == None
    decreases |items|
  {
    if k == |items| {
      assert items[..k] == items;
    } else {
      assert items[..|items| - 1][..k] == items[..k];
      Refused(rules, items[..|items| - 1], k);
    }
  }

  /** What the file may hold: at most 32 people, each once, with stored hashes. */
  predicate Valid(rules: Rules, entries: seq<Entry>)
  {
    && |entries| <= 32
    && (forall k :: 0 <= k < |entries| ==> rules.isName(entries[k].name) && rules.isHash(entries[k].hash))
    && (forall i, j :: 0 <= i < j < |entries| ==> entries[i].name != entries[j].name)
  }

  lemma {:induction false} ParseItemsValid(rules: Rules, items: seq<Json>)
    requires |items| <= MAX_ENTRIES && ParseItems(rules, items).Some?
    ensures |ParseItems(rules, items).value| == |items| && Valid(rules, ParseItems(rules, items).value)
  {
    if items != [] {
      var front := items[..|items| - 1];
      ParseItemsValid(rules, front);
      var before := ParseItems(rules, front).value;
      var e := ParseItem(rules, items[|items| - 1], before).value;
      assert forall k :: 0 <= k < |before| ==> before[k].name != e.name;
    }
  }

  /** Whatever document is accepted, what it yields is valid. */
  lemma ParseValid(rules: Rules, doc: Json)
    requires Parse(rules, doc).Some?
    ensures Valid(rules, Parse(rules, doc).value)
  {
    ParseItemsValid(rules, Get(doc, "devicePasswords").value.items);
  }

  /** The document of one person, spelled out. */
  lemma DocumentShape(rules: Rules, name: string, hash: string, time: nat)
    requires rules.isName(name) && rules.isHash(hash) && time < 0x1_0000_0000_0000_0000
    ensures var item := Fields(map["name" := Text(name), "hash" := Text(hash), "setUnix" := Number(time as real)]);
            Parse(rules, Fields(map["devicePasswords" := Items([item])])) == Some([Entry(name, hash, time)])
  {
    var item := Fields(map["name" := Text(name), "hash" := Text(hash), "setUnix" := Number(time as real)]);
    var doc := Fields(map["devicePasswords" := Items([item])]);
    assert Get(doc, "devicePasswords") == Some(Items([item]));
    assert Get(item, "name") == Some(Text(name)) && Get(item, "hash") == Some(Text(hash));
    assert Get(item, "setUnix") == Some(Number(time as real)) && (time as real).Floor == time;
    assert ParseItem(rules, item, []) == Some(Entry(name, hash, time));
    assert [item][..0] == [] && ParseItems(rules, []) == Some([]);
    assert [] + [Entry(name, hash, time)] == [Entry(name, hash, time)];
  }

  /** What a time comes back as from a double. */
  function Kept(setUnix: nat): nat
  {
    var n := Wire.Rounded(setUnix);
    if n < Wire.U64 then n else Wire.U64 - 1
  }

  function AllKept(entries: seq<Entry>): (out: seq<Entry>)
    ensures |out| == |entries|
    ensures forall k :: 0 <= k < |entries| ==> out[k] == entries[k].(setUnix := Kept(entries[k].setUnix))
  {
    seq(|entries|, k requires 0 <= k < |entries| => entries[k].(setUnix := Kept(entries[k].setUnix)))
  }

  lemma ItemRoundTrip(rules: Rules, e: Entry, before: seq<Entry>)
    requires rules.isName(e.name) && rules.isHash(e.hash) && !Names(before, e.name)
    ensures ParseItem(rules, ItemOf(e), before) == Some(e.(setUnix := Kept(e.setUnix)))
  {
    var item, n := ItemOf(e), Wire.Rounded(e.setUnix);
    hide Wire.Rounded;
    assert Get(item, "name") == Some(Text(e.name)) && Get(item, "hash") == Some(Text(e.hash));
    assert Get(item, "setUnix") == Some(Number(n as real));
    assert (n as real).Floor == n;
  }

  lemma NewName(rules: Rules, entries: seq<Entry>)
    requires Valid(rules, entries) && entries != []
    ensures !Names(AllKept(entries[..|entries| - 1]), entries[|entries| - 1].name)
    ensures Valid(rules, entries[..|entries| - 1])
  {
  }

  lemma ItemsTurn(entries: seq<Entry>)
    requires entries != []
    ensures var front, last := entries[..|entries| - 1], entries[|entries| - 1];
            && ItemsOf(entries) == ItemsOf(front) + [ItemOf(last)]
            && AllKept(entries) == AllKept(front) + [last.(setUnix := Kept(last.setUnix))]
  {
    hide ItemOf, Kept;
  }

  lemma {:induction false} ItemsRoundTrip(rules: Rules, entries: seq<Entry>)
    requires Valid(rules, entries)
    ensures ParseItems(rules, ItemsOf(entries)) == Some(AllKept(entries))
  {
    if entries != [] {
      var front, last := entries[..|entries| - 1], entries[|entries| - 1];
      NewName(rules, entries);
      ItemsRoundTrip(rules, front);
      ItemsTurn(entries);
      hide Names, Valid, ItemOf, ParseItem, Kept, AllKept, ItemsOf;
      ItemRoundTrip(rules, last, AllKept(front));
      assert ItemsOf(entries)[..|entries| - 1] == ItemsOf(front);
    }
  }

  /** The spacing at the largest time there is. */
  lemma LastUlp()
    ensures Wire.Ulp(Wire.U64 - 1) == 2048
  {
    assert Wire.Ulp(18014398509481983) == 2;
    assert Wire.Ulp(36028797018963967) == 4;
    assert Wire.Ulp(72057594037927935) == 8;
    assert Wire.Ulp(144115188075855871) == 16;
    assert Wire.Ulp(288230376151711743) == 32;
    assert Wire.Ulp(576460752303423487) == 64;
    assert Wire.Ulp(1152921504606846975) == 128;
    assert Wire.Ulp(2305843009213693951) == 256;
    assert Wire.Ulp(4611686018427387903) == 512;
    assert Wire.Ulp(9223372036854775807) == 1024;
    assert Wire.Ulp(18446744073709551615) == 2048;
  }

  /** Which times come back as they were: those a double holds, and the largest of all. */
  lemma KeptExactly(setUnix: nat)
    requires setUnix < Wire.U64
    ensures Kept(setUnix) == setUnix <==> setUnix % Wire.Ulp(setUnix) == 0 || setUnix == Wire.U64 - 1
  {
    Wire.RoundedExactly(setUnix);
    if setUnix == Wire.U64 - 1 {
      LastUlp();
      assert Wire.Nearest(Wire.U64 - 1, 2048) == Wire.U64;
    }
    hide Wire.Nearest, Wire.Ulp;
  }

  /** Reading back what was written yields it, up to the times; and it exactly when every
      time is one that comes back, as all below 2^53 are. */
  lemma FileRoundTrip(rules: Rules, entries: seq<Entry>)
    requires Valid(rules, entries)
    ensures Parse(rules, ToJson(entries)) == Some(AllKept(entries))
    ensures Parse(rules, ToJson(entries)) == Some(entries)
            <==> forall k :: 0 <= k < |entries| ==> Kept(entries[k].setUnix) == entries[k].setUnix
    ensures forall n: nat | n < 9007199254740992 :: Kept(n) == n
  {
    ItemsRoundTrip(rules, entries);
    assert Get(ToJson(entries), "devicePasswords") == Some(Items(ItemsOf(entries)));
    forall n: nat | n < Wire.EXACT ensures Kept(n) == n {
      Wire.RoundedExactly(n);
    }
    SameTimes(entries);
    hide Kept, AllKept, ItemsOf, ParseItems;
  }

  lemma SameTimes(entries: seq<Entry>)
    ensures AllKept(entries) == entries <==> forall k :: 0 <= k < |entries| ==> Kept(entries[k].setUnix) == entries[k].setUnix
  {
    hide Kept;
    if AllKept(entries) == entries {
      forall k | 0 <= k < |entries| ensures Kept(entries[k].setUnix) == entries[k].setUnix {
        assert AllKept(entries)[k] == entries[k];
      }
    }
  }

  // ---- what the file means ----

  /** Nothing there, there but unreadable, or a document that is JSON or is not. */
  datatype File = Missing | Unreadable | Document(json: Option<Json>)

  function Read(rules: Rules, file: File): seq<Entry>
  {
    if file.Document? && file.json.Some? && Parse(rules, file.json.value).Some? then Parse(rules, file.json.value).value else []
  }

  lemma ReadValid(rules: Rules, file: File)
    ensures Valid(rules, Read(rules, file))
  {
    if file.Document? && file.json.Some? && Parse(rules, file.json.value).Some? {
      ParseValid(rules, file.json.value);
    }
  }

  /** The hash each person holds. */
  function Holders(entries: seq<Entry>): (store: Auth.Store)
    ensures forall name :: name in store <==> Names(entries, name)
  {
    if entries == [] then map[]
    else
      var front, last := Holders(entries[..|entries| - 1]), entries[|entries| - 1];
      assert forall name :: Names(entries, name) <==> Names(entries[..|entries| - 1], name) || name == last.name by {
        assert entries[|entries| - 1] == last;
        assert forall k :: 0 <= k < |entries| - 1 ==> entries[k] == entries[..|entries| - 1][k];
      }
      front[last.name := last.hash]
  }

  lemma {:induction false} HoldersAt(rules: Rules, entries: seq<Entry>, k: nat)
    requires Valid(rules, entries) && k < |entries|
    ensures Holders(entries)[entries[k].name] == entries[k].hash
  {
    assert Names(entries, entries[k].name);
    if k < |entries| - 1 {
      var front := entries[..|entries| - 1];
      HoldersAt(rules, front, k);
      assert Names(front, entries[k].name);
    }
  }

  lemma HoldersOf(rules: Rules, entries: seq<Entry>, name: string) returns (k: nat)
    requires Valid(rules, entries) && Names(entries, name)
    ensures k < |entries| && entries[k].name == name && Holders(entries)[name] == entries[k].hash
  {
    k :| k < |entries| && entries[k].name == name;
    HoldersAt(rules, entries, k);
  }

  /** Two lists that name the same people with the same hashes mean the same. */
  lemma HoldersSame(rules: Rules, entries: seq<Entry>, store: Auth.Store)
    requires Valid(rules, entries)
    requires forall name :: name in store <==> Names(entries, name)
    requires forall k :: 0 <= k < |entries| ==> entries[k].name in store && store[entries[k].name] == entries[k].hash
    ensures Holders(entries) == store
  {
    var mine := Holders(entries);
    hide Holders, Names, Valid;
    assert forall name :: name in mine <==> name in store;
    forall name | name in mine ensures mine[name] == store[name] {
      var k := HoldersOf(rules, entries, name);
    }
  }

  lemma KeptHolders(rules: Rules, entries: seq<Entry>)
    requires Valid(rules, entries)
    ensures Holders(AllKept(entries)) == Holders(entries) && Valid(rules, AllKept(entries))
  {
    var kept := AllKept(entries);
    SameNames(entries, kept);
    hide Kept, AllKept;
    forall k | 0 <= k < |kept| ensures kept[k].name in Holders(entries) && Holders(entries)[kept[k].name] == kept[k].hash {
      HoldersAt(rules, entries, k);
      assert Names(entries, entries[k].name);
    }
    hide Holders, Names;
    HoldersSame(rules, kept, Holders(entries));
  }

  // ---- changing it ----

  function IndexOf(entries: seq<Entry>, name: string): (k: Option<nat>)
    ensures k.Some? ==> k.value < |entries| && entries[k.value].name == name
    ensures k.Some? <==> Names(entries, name)
    ensures k.Some? ==> forall j :: 0 <= j < k.value ==> entries[j].name != name
  {
    if entries == [] then None
    else
      FrontNames(entries, name);
      var front := IndexOf(entries[..|entries| - 1], name);
      if front.Some? then front
      else if entries[|entries| - 1].name == name then Some(|entries| - 1) else None
  }

  /** The entries after one person's password is set: replaced where it stood, or added. */
  function Placed(entries: seq<Entry>, e: Entry): seq<Entry>
  {
    var k := IndexOf(entries, e.name);
    if k.Some? then entries[k.value := e] else entries + [e]
  }

  function Removed(entries: seq<Entry>, name: string): (out: seq<Entry>)
    ensures |out| <= |entries|
  {
    if entries == [] then []
    else
      var front, last := Removed(entries[..|entries| - 1], name), entries[|entries| - 1];
      if last.name != name then front + [last] else front
  }

  lemma PlacedIs(rules: Rules, entries: seq<Entry>, e: Entry)
    requires Valid(rules, entries) && rules.isName(e.name) && rules.isHash(e.hash)
    requires Names(entries, e.name) || |entries| < MAX_ENTRIES
    ensures Valid(rules, Placed(entries, e))
    ensures forall name :: Names(Placed(entries, e), name) <==> Names(entries, name) || name == e.name
    ensures var out := Placed(entries, e);
            forall k :: 0 <= k < |out| ==> out[k] == e || (out[k] in entries && out[k].name != e.name)
  {
    var out, at := Placed(entries, e), IndexOf(entries, e.name);
    if at.Some? {
      forall k | 0 <= k < |out| && k != at.value ensures out[k] == entries[k] && out[k].name != e.name {
        assert if k < at.value then entries[k].name != entries[at.value].name else entries[at.value].name != entries[k].name;
      }
      SameNames(entries, out);
    } else {
      assert out[..|out| - 1] == entries;
      forall name ensures Names(out, name) <==> Names(entries, name) || name == e.name {
        FrontNames(out, name);
      }
      forall k | 0 <= k < |entries| ensures entries[k].name != e.name {
        assert Names(entries, entries[k].name);
      }
    }
  }

  lemma SameNames(a: seq<Entry>, b: seq<Entry>)
    requires |a| == |b| && forall k :: 0 <= k < |a| ==> a[k].name == b[k].name
    ensures forall name :: Names(a, name) <==> Names(b, name)
  {
    forall name ensures Names(a, name) <==> Names(b, name) {
      if Names(a, name) {
        var k :| 0 <= k < |a| && a[k].name == name;
        assert b[k].name == name;
      }
      if Names(b, name) {
        var k :| 0 <= k < |b| && b[k].name == name;
        assert a[k].name == name;
      }
    }
  }

  lemma {:induction false} RemovedIs(rules: Rules, entries: seq<Entry>, name: string)
    requires Valid(rules, entries)
    ensures forall x :: x in Removed(entries, name) <==> x in entries && x.name != name
    ensures |Removed(entries, name)| == |entries| <==> !Names(entries, name)
    ensures Valid(rules, Removed(entries, name))
  {
    if entries != [] {
      var front, last := entries[..|entries| - 1], entries[|entries| - 1];
      assert entries == front + [last];
      assert Valid(rules, front) && rules.isName(last.name) && rules.isHash(last.hash) && |front| < MAX_ENTRIES;
      assert forall x :: x in front ==> x.name != last.name;
      RemovedIs(rules, front, name);
      FrontNames(entries, name);
      AppendValid(rules, Removed(front, name), last);
      hide Valid, Names;
    }
  }

  lemma FrontNames(entries: seq<Entry>, name: string)
    requires entries != []
    ensures Names(entries, name) <==> Names(entries[..|entries| - 1], name) || entries[|entries| - 1].name == name
  {
    var front := entries[..|entries| - 1];
    if Names(front, name) {
      var k :| 0 <= k < |front| && front[k].name == name;
      assert entries[k].name == name;
    }
  }

  lemma AppendValid(rules: Rules, front: seq<Entry>, last: Entry)
    requires Valid(rules, front) && rules.isName(last.name) && rules.isHash(last.hash) && |front| < MAX_ENTRIES
    requires forall x :: x in front ==> x.name != last.name
    ensures Valid(rules, front + [last])
  {
  }

  /** Setting one person's password changes the hash they hold, and nobody else's. */
  lemma SetMeans(rules: Rules, entries: seq<Entry>, e: Entry)
    requires Valid(rules, entries) && rules.isName(e.name) && rules.isHash(e.hash)
    requires Names(entries, e.name) || |entries| < MAX_ENTRIES
    ensures Valid(rules, Placed(entries, e))
    ensures Holders(Placed(entries, e)) == Holders(entries)[e.name := e.hash]
  {
    PlacedIs(rules, entries, e);
    var out, store := Placed(entries, e), Holders(entries)[e.name := e.hash];
    hide Placed, Valid;
    forall k | 0 <= k < |out| ensures out[k].name in store && store[out[k].name] == out[k].hash {
      if out[k] != e {
        var j :| 0 <= j < |entries| && entries[j] == out[k];
        HoldersAt(rules, entries, j);
        assert Names(entries, entries[j].name);
      }
    }
    hide Holders, Names;
    HoldersSame(rules, out, store);
  }

  /** `x` is one of these entries, with its time as a double keeps it. */
  predicate KeptFrom(entries: seq<Entry>, x: Entry)
  {
    exists k :: 0 <= k < |entries| && x == entries[k].(setUnix := Kept(entries[k].setUnix))
  }

  /** What is on disk after a password is set: that person's entry with the time of the
      change, and everybody else's as it was, each time as a double keeps it. */
  lemma SetTimes(rules: Rules, entries: seq<Entry>, e: Entry)
    requires Valid(rules, entries)
    ensures forall x :: x in AllKept(Placed(entries, e)) <==>
              x == e.(setUnix := Kept(e.setUnix)) || (x.name != e.name && KeptFrom(entries, x))
  {
    var out, at := Placed(entries, e), IndexOf(entries, e.name);
    var kept := AllKept(out);
    hide AllKept, Kept, IndexOf;
    var mine := if at.Some? then at.value else |entries|;
    assert kept[mine] == e.(setUnix := Kept(e.setUnix));
    forall k | 0 <= k < |entries| && k != mine ensures out[k] == entries[k] && entries[k].name != e.name {
      if at.Some? {
        assert if k < mine then entries[k].name != entries[mine].name else entries[mine].name != entries[k].name;
      } else {
        assert !Names(entries, e.name);
      }
    }
    forall x ensures x in kept <==> x == kept[mine] || (x.name != e.name && KeptFrom(entries, x)) {
      if x in kept {
        var k :| 0 <= k < |kept| && kept[k] == x;
      }
      if x.name != e.name && KeptFrom(entries, x) {
        var k :| 0 <= k < |entries| && x == entries[k].(setUnix := Kept(entries[k].setUnix));
        assert kept[k] == x;
      }
    }
  }

  /** Clearing one person's password leaves exactly the others. */
  lemma RemovedNames(rules: Rules, entries: seq<Entry>, name: string, who: string)
    requires Valid(rules, entries)
    ensures Names(Removed(entries, name), who) <==> Names(entries, who) && who != name
  {
    RemovedIs(rules, entries, name);
    var out := Removed(entries, name);
    hide Removed, Valid;
    if Names(out, who) {
      var k :| 0 <= k < |out| && out[k].name == who;
      assert out[k] in out;
      var j :| 0 <= j < |entries| && entries[j] == out[k];
    }
    if Names(entries, who) && who != name {
      var j :| 0 <= j < |entries| && entries[j].name == who;
      assert entries[j] in out;
      var k :| 0 <= k < |out| && out[k] == entries[j];
    }
  }

  lemma RemovedHash(rules: Rules, entries: seq<Entry>, name: string, k: nat)
    requires Valid(rules, entries) && k < |Removed(entries, name)|
    ensures var e := Removed(entries, name)[k];
            e.name != name && e.name in Holders(entries) && Holders(entries)[e.name] == e.hash
  {
    RemovedIs(rules, entries, name);
    var out := Removed(entries, name);
    hide Removed, Valid, Holders;
    assert out[k] in out;
    var j :| 0 <= j < |entries| && entries[j] == out[k];
    HoldersAt(rules, entries, j);
  }

  lemma ClearMeans(rules: Rules, entries: seq<Entry>, name: string)
    requires Valid(rules, entries)
    ensures Valid(rules, Removed(entries, name))
    ensures Holders(Removed(entries, name)) == Holders(entries) - {name}
    ensures |Removed(entries, name)| == |entries| <==> name !in Holders(entries)
  {
    RemovedIs(rules, entries, name);
    var out, store := Removed(entries, name), Holders(entries) - {name};
    hide Removed, Valid;
    forall who ensures who in store <==> Names(out, who) {
      RemovedNames(rules, entries, name, who);
    }
    hide Holders, Names;
    forall k | 0 <= k < |out| ensures out[k].name in store && store[out[k].name] == out[k].hash {
      RemovedHash(rules, entries, name, k);
    }
    HoldersSame(rules, out, store);
  }

  // ---- the store as it runs ----

  datatype Refusal = TooShort | NoSalt | Full | WriteFailed

  class DevicePasswords {
    const rules: Rules
    var file: File

    constructor (rules: Rules, file: File)
      ensures this.rules == rules && this.file == file
    {
      this.rules, this.file := rules, file;
    }

    /** Everybody who holds a device password, and the hash they hold. */
    ghost function Store(): Auth.Store
      reads this
    {
      Holders(Read(rules, file))
    }

    method Entries() returns (entries: seq<Entry>)
      ensures entries == Read(rules, file)
      ensures Valid(rules, entries)
    {
      ReadValid(rules, file);
      if !file.Document? || file.json == None {
        return [];
      }
      var parsed := ParseDocument(rules, file.json.value);
      return if parsed.Some? then parsed.value else [];
    }

    method Holds(name: string) returns (held: bool)
      ensures held <==> name in Store()
    {
      var entries := Entries();
      held := IndexOf(entries, name).Some?;
    }

    /** No for an unknown person, an unusable file and a wrong password alike. */
    method Verify(name: string, password: string) returns (ok: bool)
      ensures ok <==> name in Store() && rules.matches(Store()[name], password)
    {
      var entries := Entries();
      var k := IndexOf(entries, name);
      if k == None {
        return false;
      }
      HoldersAt(rules, entries, k.value);
      return rules.matches(entries[k.value].hash, password);
    }

    /** `hash` is what the password hashed to, if there was salt to be had; `written`
        is whether the new file could be put in place. */
    method Set(name: string, password: string, hash: Option<string>, now: nat, written: bool) returns (refused: Option<Refusal>)
      requires rules.isName(name) && (hash.Some? ==> rules.isHash(hash.value))
      modifies this
      ensures refused == if |password| < 16 then Some(TooShort)
                         else if hash == None then Some(NoSalt)
                         else if name !in old(Store()) && |Read(rules, old(file))| >= 32 then Some(Full)
                         else if !written then Some(WriteFailed)
                         else None
      ensures refused.Some? ==> file == old(file)
      ensures refused == None ==> Store() == old(Store())[name := hash.value]
      ensures refused == None ==>
                forall x :: x in Read(rules, file) <==>
                  x == Entry(name, hash.value, Kept(now)) || (x.name != name && KeptFrom(Read(rules, old(file)), x))
    {
      if |password| < MIN_PASSWORD_LENGTH {
        return Some(TooShort);
      }
      if hash == None {
        return Some(NoSalt);
      }
      var entries := Entries();
      var e := Entry(name, hash.value, now);
      var k := IndexOf(entries, name);
      if k == None && |entries| >= MAX_ENTRIES {
        return Some(Full);
      }
      SetMeans(rules, entries, e);
      SetTimes(rules, entries, e);
      var more := if k.Some? then entries[k.value := e] else entries + [e];
      refused := Persist(more, written);
    }

    /** Whether there was one to forget. */
    method Clear(name: string, written: bool) returns (cleared: Result<bool, Refusal>)
      modifies this
      ensures name !in old(Store()) ==> cleared == Ok(false) && file == old(file)
      ensures name in old(Store()) && !written ==> cleared == Err(WriteFailed) && file == old(file)
      ensures name in old(Store()) && written ==> cleared == Ok(true) && Store() == old(Store()) - {name}
    {
      var entries := Entries();
      var kept: seq<Entry> := [];
      for k := 0 to |entries|
        invariant file == old(file)
        invariant kept == Removed(entries[..k], name)
      {
        assert entries[..k + 1][..k] == entries[..k];
        if entries[k].name != name {
          kept := kept + [entries[k]];
        }
      }
      assert entries[..|entries|] == entries;
      ClearMeans(rules, entries, name);
      if |kept| == |entries| {
        return Ok(false);
      }
      var refused := Persist(kept, written);
      return if refused.Some? then Err(refused.value) else Ok(true);
    }

    /** The whole new document replaces the whole old one, or nothing changes. */
    method Persist(entries: seq<Entry>, written: bool) returns (refused: Option<Refusal>)
      requires Valid(rules, entries)
      modifies this
      ensures refused == if written then None else Some(WriteFailed)
      ensures if written then Read(rules, file) == AllKept(entries) && Store() == Holders(entries) else file == old(file)
    {
      if !written {
        return Some(WriteFailed);
      }
      file := Document(Some(ToJson(entries)));
      FileRoundTrip(rules, entries);
      KeptHolders(rules, entries);
      return None;
    }
  }
}
