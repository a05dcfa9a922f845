/** The topic registry as `main` assembles it: the configuration file's table first,
    then the `-t TOPIC [BODY [TITLE]]` options merged in with `|=`. */
module Cli {
  import opened Optional
  import opened Formats
  import opened TopicRegistry
  import opened Pairs

  /** One `-t` occurrence. The option takes one or more arguments, so a topic is
      always there; `extra` holds whatever followed it. */
  datatype TopicOption = TopicOption(topic: string, extra: seq<string>)

  /** The field names the extra arguments are zipped with, in order. */
  const FieldOrder: seq<string> := [BodyKey, TitleKey]

  /** `dict(zip(keys, values))`: pairs up to the shorter of the two; a key takes the
      value of its last pair, so with distinct keys every pair is kept. */
  function ZipDict(keys: seq<string>, values: seq<string>): (m: map<string, string>)
    ensures m.Keys == set i | 0 <= i < |keys| && i < |values| :: keys[i]
    ensures Distinct(keys) ==>
              forall i :: 0 <= i < |keys| && i < |values| ==> m[keys[i]] == values[i]
    ensures forall i ::
              (&& 0 <= i < |keys| && i < |values|
               && forall j :: i < j < |keys| && j < |values| ==> keys[j] != keys[i])
              ==> m[keys[i]] == values[i]
  {
    if |keys| == 0 || |values| == 0 then map[]
    else
      var rest := ZipDict(keys[1..], values[1..]);
      assert Distinct(keys) ==> Distinct(keys[1..]) && keys[0] !in keys[1..] by {
        if Distinct(keys) {
          forall i, j | 0 <= i < j < |keys| - 1
            ensures keys[1..][i] != keys[1..][j]
          {
            assert keys[i + 1] != keys[j + 1];
          }
        }
      }
      if keys[0] in rest then rest else rest[keys[0] := values[0]]
  }

  /** The format a `-t` option contributes: the first extra argument is the body
      template, the second the title template, and any further ones are ignored. */
  function OptionFormat(extra: seq<string>): (fmt: Format)
    ensures BodyKey in fmt <==> |extra| >= 1
    ensures TitleKey in fmt <==> |extra| >= 2
    ensures fmt.Keys <= {BodyKey, TitleKey}
    ensures BodyKey in fmt ==> fmt[BodyKey] == extra[0]
    ensures TitleKey in fmt ==> fmt[TitleKey] == extra[1]
  {
    assert FieldOrder[0] == BodyKey && FieldOrder[1] == TitleKey;
    ZipDict(FieldOrder, extra)
  }

  /** The `(topic, format)` pairs of the options, in command-line order. */
  function Entries(options: seq<TopicOption>): (entries: Registry)
    ensures |entries| == |options|
    ensures forall i :: 0 <= i < |options| ==>
              entries[i] == (options[i].topic, OptionFormat(options[i].extra))
  {
    if |options| == 0 then []
    else [(options[0].topic, OptionFormat(options[0].extra))] + Entries(options[1..])
  }

  /** The topics named by `-t`, in command-line order, repeats included. */
  function OptionTopics(options: seq<TopicOption>): seq<string> {
    Keys(Entries(options))
  }

  /** The dictionary comprehension over the `-t` options. */
  function Comprehension(options: seq<TopicOption>): Registry {
    Update([], Entries(options))
  }

  /** `topics = config; topics |= {comprehension}`. */
  function Assemble(config: Registry, options: seq<TopicOption>): (r: Registry)
    ensures |config| <= |r| <= |config| + |options|
    ensures forall i :: 0 <= i < |config| ==> r[i].0 == config[i].0
    ensures forall i :: 0 <= i < |config| && config[i].0 !in OptionTopics(options) ==> r[i] == config[i]
  {
    Update(config, Comprehension(options))
  }

  lemma {:induction false} FreshMembers(seen: seq<string>, keys: seq<string>, x: string)
    ensures x in Fresh(seen, keys) <==> x in keys && x !in seen
    decreases |keys|
  {
    if |keys| > 0 {
      assert keys == [keys[0]] + keys[1..];
      if keys[0] in seen {
        FreshMembers(seen, keys[1..], x);
      } else {
        FreshMembers(seen + [keys[0]], keys[1..], x);
      }
    }
  }

  /** Dropping keys already seen is not changed by first dropping keys from a smaller
      seen list: the comprehension followed by `|=` appends the new topics in the same
      order as storing the options one by one would. */
  lemma {:induction false} FreshTwice(seen: seq<string>, earlier: seq<string>, keys: seq<string>)
    requires forall y :: y in earlier ==> y in seen
    ensures Fresh(seen, Fresh(earlier, keys)) == Fresh(seen, keys)
    decreases |keys|
  {
    if |keys| > 0 {
      var x := keys[0];
      if x in earlier {
        FreshTwice(seen, earlier, keys[1..]);
      } else if x in seen {
        FreshTwice(seen, earlier + [x], keys[1..]);
      } else {
        var inner := Fresh(earlier + [x], keys[1..]);
        assert Fresh(earlier, keys) == [x] + inner;
        assert ([x] + inner)[1..] == inner;
        FreshTwice(seen + [x], earlier + [x], keys[1..]);
      }
    }
  }

  /** The assembled registry lists the configuration's filters first, in their order,
      then the new `-t` topics in order of first mention, each once. */
  lemma AssembleKeys(config: Registry, options: seq<TopicOption>)
    requires UniqueKeys(config)
    ensures UniqueKeys(Assemble(config, options))
    ensures Keys(Assemble(config, options)) == Keys(config) + Fresh(Keys(config), OptionTopics(options))
  {
    var entries := Entries(options);
    var comp := Comprehension(options);
    assert Keys<Format>([]) == [];
    UpdateKeys([], entries);
    UpdateUnique([], entries);
    UpdateKeys(config, comp);
    UpdateUnique(config, comp);
    assert Keys(comp) == Fresh([], Keys(entries));
    FreshTwice(Keys(config), [], Keys(entries));
  }

  /** Each filter of the assembled registry carries the format of its last `-t` if it
      has one, and its configuration format otherwise. */
  lemma AssembleValue(config: Registry, options: seq<TopicOption>, i: nat)
    requires UniqueKeys(config)
    requires i < |Assemble(config, options)|
    ensures var reg := Assemble(config, options);
      Some(reg[i].1) == if reg[i].0 in OptionTopics(options) then Some(Last(Entries(options), reg[i].0))
                        else Lookup(config, reg[i].0)
  {
    var entries := Entries(options);
    var comp := Comprehension(options);
    var reg := Assemble(config, options);
    var k := reg[i].0;
    AssembleKeys(config, options);
    assert Keys<Format>([]) == [];
    UpdateKeys([], entries);
    UpdateUnique([], entries);
    FreshMembers([], Keys(entries), k);
    LookupAt(reg, i);
    UpdateLookup(config, comp, k);
    if k in Keys(comp) {
      LastIsLookup(comp, k);
      UpdateLookup([], entries, k);
    }
  }

  /** The configuration's filters keep their positions; a filter also given with `-t`
      takes the format of its last `-t`, the others keep their configuration format. */
  lemma AssembleKeepsConfig(config: Registry, options: seq<TopicOption>, i: nat)
    requires UniqueKeys(config) && i < |config|
    ensures var reg := Assemble(config, options);
      && i < |reg|
      && reg[i].0 == config[i].0
      && reg[i].1 == if config[i].0 in OptionTopics(options) then Last(Entries(options), config[i].0)
                     else config[i].1
  {
    var reg := Assemble(config, options);
    AssembleKeys(config, options);
    assert Keys(reg)[i] == Keys(config)[i];
    AssembleValue(config, options, i);
    LookupAt(config, i);
  }

  /** Every entry after the configuration's is a `-t` topic the configuration did not
      have, with the format of its last `-t`. */
  lemma AssembleAppendsOptions(config: Registry, options: seq<TopicOption>, i: nat)
    requires UniqueKeys(config)
    requires |config| <= i < |Assemble(config, options)|
    ensures var reg := Assemble(config, options);
      && reg[i].0 in OptionTopics(options)
      && reg[i].0 !in Keys(config)
      && reg[i].1 == Last(Entries(options), reg[i].0)
  {
    var reg := Assemble(config, options);
    AssembleKeys(config, options);
    assert Keys(reg)[i] == Fresh(Keys(config), OptionTopics(options))[i - |config|];
    FreshMembers(Keys(config), OptionTopics(options), reg[i].0);
    AssembleValue(config, options, i);
  }

  /** A configuration filter that matches a topic first still answers for it once the
      `-t` options are merged in, with its format replaced when `-t` named the same
      filter. */
  lemma ConfigMatchesFirst(config: Registry, options: seq<TopicOption>, topic: string, i: nat)
    requires UniqueKeys(config)
    requires FirstMatch(config, topic) == Some(i)
    ensures FindFormat(Assemble(config, options), topic) ==
      Some(if config[i].0 in OptionTopics(options) then Last(Entries(options), config[i].0)
           else config[i].1)
  {
    var reg := Assemble(config, options);
    AssembleKeys(config, options);
    assert Keys(reg)[..|config|] == Keys(config);
    FirstMatchOnPrefix(config, reg, topic);
    AssembleKeepsConfig(config, options, i);
  }

  /** The comprehension over `-t b BODY` and `-t c BODY2 TITLE2 extra`: "b" with
      {body: BODY}, then "c" with {body: BODY2, title: TITLE2}. */
  lemma ComprehensionExample()
    ensures Comprehension([TopicOption("b", ["BODY"]), TopicOption("c", ["BODY2", "TITLE2", "extra"])])
         == [("b", map[BodyKey := "BODY"]), ("c", map[BodyKey := "BODY2", TitleKey := "TITLE2"])]
  {
    var options := [TopicOption("b", ["BODY"]), TopicOption("c", ["BODY2", "TITLE2", "extra"])];
    var fb := map[BodyKey := "BODY"];
    var fc := map[BodyKey := "BODY2", TitleKey := "TITLE2"];
    assert OptionFormat(["BODY"]) == fb;
    assert OptionFormat(["BODY2", "TITLE2", "extra"]) == fc;
    var entries := [("b", fb), ("c", fc)];
    assert Entries(options) == entries;
    assert entries[1..] == [("c", fc)] && entries[1..][1..] == [];
    assert Put([], "b", fb) == [("b", fb)];
    assert Put([("b", fb)], "c", fc) == entries;
  }

  /** `|=` of the comprehension above into a configuration with "a/#" and "b": "b" is
      replaced in place and "c" appended. */
  lemma UpdateExample(fa: Format, fb: Format)
    ensures var fb' := map[BodyKey := "BODY"];
      var fc := map[BodyKey := "BODY2", TitleKey := "TITLE2"];
      Update([("a/#", fa), ("b", fb)], [("b", fb'), ("c", fc)]) == [("a/#", fa), ("b", fb'), ("c", fc)]
  {
    var fb' := map[BodyKey := "BODY"];
    var fc := map[BodyKey := "BODY2", TitleKey := "TITLE2"];
    var entries := [("b", fb'), ("c", fc)];
    assert entries[1..] == [("c", fc)] && entries[1..][1..] == [];
    assert Put([("a/#", fa), ("b", fb)], "b", fb') == [("a/#", fa), ("b", fb')];
    assert [("a/#", fa), ("b", fb')][1..] == [("b", fb')];
    assert Put([("b", fb')], "c", fc) == [("b", fb'), ("c", fc)];
    assert Put([("a/#", fa), ("b", fb')], "c", fc) == [("a/#", fa), ("b", fb'), ("c", fc)];
  }

  /** A configuration with filters "a/#" and "b", and the options `-t b BODY` and
      `-t c BODY2 TITLE2 extra`: "b" keeps its place with the format {body: BODY}, and
      "c" is appended with {body: BODY2, title: TITLE2}. */
  lemma AssembleExample(fa: Format, fb: Format)
    ensures Assemble([("a/#", fa), ("b", fb)],
                     [TopicOption("b", ["BODY"]), TopicOption("c", ["BODY2", "TITLE2", "extra"])])
         == [("a/#", fa), ("b", map[BodyKey := "BODY"]), ("c", map[BodyKey := "BODY2", TitleKey := "TITLE2"])]
  {
    ComprehensionExample();
    UpdateExample(fa, fb);
  }
}
