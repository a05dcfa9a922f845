/** The topic registry: the program's `topics` dictionary, which maps a topic filter to
    its format and, being a Python dict, remembers the order in which keys were first
    inserted. It is modelled as an association list, so that the first-match order of
    `find_format` is explicit. */
module TopicRegistry {
  import opened Optional
  import opened Topics
  import opened Formats
  import opened Pairs

  /** One entry: a topic filter and its format. */
  type Entry = (string, Format)
  /** Entries in insertion order. */
  type Registry = seq<Entry>

  predicate Distinct(keys: seq<string>) {
    forall i, j :: 0 <= i < j < |keys| ==> keys[i] != keys[j]
  }

  /** A dictionary holds each key once. */
  predicate UniqueKeys(reg: Registry) {
    Distinct(Keys(reg))
  }

  /** `d.get(key)`: the value stored under `key`. */
  function Lookup(reg: Registry, key: string): (r: Option<Format>)
  {
    if |reg| == 0 then None
    else if reg[0].0 == key then Some(reg[0].1)
    else Lookup(reg[1..], key)
  }

  /** A key is missing from a dictionary exactly when it is not one of its keys. */
  lemma {:induction false} LookupAbsent(reg: Registry, key: string)
    ensures Lookup(reg, key).None? <==> key !in Keys(reg)
  {
    if |reg| > 0 {
      LookupAbsent(reg[1..], key);
      assert Keys(reg) == [reg[0].0] + Keys(reg[1..]);
    }
  }

  /** In a dictionary, looking up the key at a position gives the value at that position. */
  lemma {:induction false} LookupAt(reg: Registry, i: nat)
    requires UniqueKeys(reg) && i < |reg|
    ensures Lookup(reg, reg[i].0) == Some(reg[i].1)
  {
    if i > 0 {
      assert reg[0].0 != reg[i].0 by { assert Keys(reg)[0] != Keys(reg)[i]; }
      LookupAt(reg[1..], i - 1);
    }
  }

  /** `d[key] = value`: an existing key keeps its position and takes the new value, a
      new key is appended. */
  function Put(reg: Registry, key: string, value: Format): (r: Registry)
    ensures |r| == if key in Keys(reg) then |reg| else |reg| + 1
    ensures Lookup(r, key) == Some(value)
  {
    if |reg| == 0 then [(key, value)]
    else if reg[0].0 == key then [(key, value)] + reg[1..]
    else [reg[0]] + Put(reg[1..], key, value)
  }

  /** Storing a value keeps every entry at its position with its key and changes no
      value stored under another key; a new key is appended with the value. */
  lemma {:induction false} PutPositions(reg: Registry, key: string, value: Format)
    ensures var r := Put(reg, key, value);
      && (forall i :: 0 <= i < |reg| ==> r[i].0 == reg[i].0 && (reg[i].0 != key ==> r[i].1 == reg[i].1))
      && (key !in Keys(reg) ==> r[|reg|] == (key, value))
  {
    var r := Put(reg, key, value);
    if |reg| > 0 && reg[0].0 != key {
      var rest := Put(reg[1..], key, value);
      PutPositions(reg[1..], key, value);
      assert r == [reg[0]] + rest;
      forall i | 0 < i < |reg|
        ensures r[i].0 == reg[i].0 && (reg[i].0 != key ==> r[i].1 == reg[i].1)
      {
        assert r[i] == rest[i - 1] && reg[i] == reg[1..][i - 1];
      }
      if key !in Keys(reg) {
        assert Keys(reg) == [reg[0].0] + Keys(reg[1..]);
        assert r[|reg|] == rest[|reg| - 1];
      }
    } else if |reg| > 0 {
      assert r == [(key, value)] + reg[1..];
      assert Keys(reg)[0] == key;
    }
  }

  /** Storing a value keeps the keys in order; a new key goes last. */
  lemma {:induction false} PutKeys(reg: Registry, key: string, value: Format)
    ensures Keys(Put(reg, key, value)) == if key in Keys(reg) then Keys(reg) else Keys(reg) + [key]
  {
    if |reg| > 0 && reg[0].0 != key {
      PutKeys(reg[1..], key, value);
      assert ([reg[0]] + Put(reg[1..], key, value))[1..] == Put(reg[1..], key, value);
    } else if |reg| > 0 {
      assert ([(key, value)] + reg[1..])[1..] == reg[1..];
    }
  }

  /** After storing a value the key maps to it and every other key keeps its value. */
  lemma {:induction false} PutLookup(reg: Registry, key: string, value: Format, k: string)
    ensures Lookup(Put(reg, key, value), k) == if k == key then Some(value) else Lookup(reg, k)
  {
    var p := Put(reg, key, value);
    if k != key && |reg| > 0 {
      if reg[0].0 != key {
        PutLookup(reg[1..], key, value, k);
        assert p[0] == reg[0] && p[1..] == Put(reg[1..], key, value);
      } else {
        assert p[0] == (key, value) && p[1..] == reg[1..];
      }
    }
  }

  /** Storing a value never makes a key appear twice. */
  lemma PutUnique(reg: Registry, key: string, value: Format)
    requires UniqueKeys(reg)
    ensures UniqueKeys(Put(reg, key, value))
  {
    PutKeys(reg, key, value);
    var ks := Keys(reg);
    if key !in ks {
      var ks' := ks + [key];
      forall i, j | 0 <= i < j < |ks'|
        ensures ks'[i] != ks'[j]
      {
        if j == |ks| {
          assert ks'[i] == ks[i] && ks[i] in ks;
        } else {
          assert ks'[i] == ks[i] && ks'[j] == ks[j];
        }
      }
    }
  }

  /** The keys of `keys` that are not in `seen`, each once, in order of first appearance:
      the keys an update appends. */
  function Fresh(seen: seq<string>, keys: seq<string>): seq<string>
    decreases |keys|
  {
    if |keys| == 0 then []
    else if keys[0] in seen then Fresh(seen, keys[1..])
    else [keys[0]] + Fresh(seen + [keys[0]], keys[1..])
  }

  /** The value of the last entry with the given key. */
  function Last(entries: Registry, key: string): Format
    requires key in Keys(entries)
  {
    if key in Keys(entries[1..]) then Last(entries[1..], key) else entries[0].1
  }

  /** `d.update(entries)` (also `d |= entries`): each entry in turn is stored as by `Put`. */
  function Update(reg: Registry, entries: Registry): (r: Registry)
    ensures |reg| <= |r| <= |reg| + |entries|
    ensures forall i :: 0 <= i < |reg| ==> r[i].0 == reg[i].0
    ensures forall i :: 0 <= i < |reg| && reg[i].0 !in Keys(entries) ==> r[i] == reg[i]
    ensures forall i :: |reg| <= i < |r| ==> r[i].0 in Keys(entries)
    decreases |entries|
  {
    if |entries| == 0 then reg
    else
      var p := Put(reg, entries[0].0, entries[0].1);
      PutPositions(reg, entries[0].0, entries[0].1);
      var r := Update(p, entries[1..]);
      assert Keys(entries) == [entries[0].0] + Keys(entries[1..]);
      assert forall i :: |reg| <= i < |r| ==> r[i].0 in Keys(entries) by {
        forall i | |reg| <= i < |r|
          ensures r[i].0 in Keys(entries)
        {
          if i < |p| {
            assert i == |reg| && entries[0].0 !in Keys(reg);
            assert r[i].0 == p[i].0 == entries[0].0;
          } else {
            assert r[i].0 in Keys(entries[1..]);
          }
        }
      }
      r
  }

  /** After an update the old keys keep their order and come first, and the new keys
      follow in order of first appearance. */
  lemma {:induction false} UpdateKeys(reg: Registry, entries: Registry)
    ensures Keys(Update(reg, entries)) == Keys(reg) + Fresh(Keys(reg), Keys(entries))
    decreases |entries|
  {
    if |entries| > 0 {
      var e := entries[0];
      var ks := Keys(entries);
      assert ks[0] == e.0 && ks[1..] == Keys(entries[1..]);
      var p := Put(reg, e.0, e.1);
      assert Update(reg, entries) == Update(p, entries[1..]);
      PutKeys(reg, e.0, e.1);
      UpdateKeys(p, entries[1..]);
      if e.0 in Keys(reg) {
        assert Fresh(Keys(reg), ks) == Fresh(Keys(reg), ks[1..]);
      } else {
        var later := Fresh(Keys(reg) + [e.0], ks[1..]);
        assert Fresh(Keys(reg), ks) == [e.0] + later;
        assert Keys(p) + later == Keys(reg) + ([e.0] + later);
      }
    }
  }

  /** After an update every key takes the value of its last entry, if it has one, and
      keeps its old value otherwise. */
  lemma {:induction false} UpdateLookup(reg: Registry, entries: Registry, k: string)
    ensures Lookup(Update(reg, entries), k) ==
      if k in Keys(entries) then Some(Last(entries, k)) else Lookup(reg, k)
    decreases |entries|
  {
    if |entries| > 0 {
      var e := entries[0];
      PutLookup(reg, e.0, e.1, k);
      UpdateLookup(Put(reg, e.0, e.1), entries[1..], k);
    }
  }

  /** An update never makes a key appear twice. */
  lemma {:induction false} UpdateUnique(reg: Registry, entries: Registry)
    requires UniqueKeys(reg)
    ensures UniqueKeys(Update(reg, entries))
    decreases |entries|
  {
    if |entries| > 0 {
      PutUnique(reg, entries[0].0, entries[0].1);
      UpdateUnique(Put(reg, entries[0].0, entries[0].1), entries[1..]);
    }
  }

  /** The index of the first entry, in insertion order, whose filter matches the topic. */
  function FirstMatch(reg: Registry, topic: string): (r: Option<nat>)
    ensures r.Some? ==> r.value < |reg| && Matches(reg[r.value].0, topic)
    ensures r.Some? ==> forall j :: 0 <= j < r.value ==> !Matches(reg[j].0, topic)
    ensures r.None? <==> forall j :: 0 <= j < |reg| ==> !Matches(reg[j].0, topic)
  {
    if |reg| == 0 then None
    else if Matches(reg[0].0, topic) then Some(0)
    else
      match FirstMatch(reg[1..], topic)
      case None => None
      case Some(i) => Some(i + 1)
  }

  /** `find_format`: the format of the first filter that matches the topic, or `None`
      where the program raises `KeyError`. */
  function FindFormat(reg: Registry, topic: string): (r: Option<Format>)
    ensures r.None? <==> forall j :: 0 <= j < |reg| ==> !Matches(reg[j].0, topic)
    ensures r.Some? ==> exists i :: && 0 <= i < |reg|
                                    && Matches(reg[i].0, topic)
                                    && (forall j :: 0 <= j < i ==> !Matches(reg[j].0, topic))
                                    && r.value == reg[i].1
  {
    match FirstMatch(reg, topic)
    case None => None
    case Some(i) => Some(reg[i].1)
  }

  /** Only the filters decide the first match: a registry whose filters start with the
      filters of another finds the same first match whenever the shorter one finds one. */
  lemma FirstMatchOnPrefix(reg: Registry, longer: Registry, topic: string)
    requires |reg| <= |longer| && Keys(longer)[..|reg|] == Keys(reg)
    ensures FirstMatch(reg, topic).Some? ==> FirstMatch(longer, topic) == FirstMatch(reg, topic)
    ensures FirstMatch(reg, topic).None? && FirstMatch(longer, topic).Some? ==>
              FirstMatch(longer, topic).value >= |reg|
  {
    forall j | 0 <= j < |reg|
      ensures longer[j].0 == reg[j].0
    {
      assert Keys(longer)[..|reg|][j] == Keys(reg)[j];
    }
  }

  /** An earlier filter shadows every later one, however specific: with "sensors/#"
      registered before "sensors/temp", the topic "sensors/temp" gets the format of
      "sensors/#". */
  lemma EarlierFilterShadowsLater(general: string, specific: string, a: Format, b: Format)
    requires general == "sensors/#" && specific == "sensors/temp"
    ensures FindFormat([(general, a), (specific, b)], specific) == Some(a)
  {
    LevelsOf(general, ["sensors", "#"]);
    LevelsOf(specific, ["sensors", "temp"]);
  }

  /** In a dictionary the last entry with a key is its only entry. */
  lemma {:induction false} LastIsLookup(reg: Registry, key: string)
    requires UniqueKeys(reg) && key in Keys(reg)
    ensures Lookup(reg, key) == Some(Last(reg, key))
  {
    if reg[0].0 != key {
      assert UniqueKeys(reg[1..]) by {
        forall i, j | 0 <= i < j < |reg| - 1
          ensures Keys(reg[1..])[i] != Keys(reg[1..])[j]
        {
          assert Keys(reg)[i + 1] != Keys(reg)[j + 1];
        }
      }
      LastIsLookup(reg[1..], key);
    }
  }
}
