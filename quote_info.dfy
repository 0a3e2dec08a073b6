/**
 * The flattening done by the `info` property of the quote helper class:
 * the quote-summary result is a dictionary of modules (assetProfile,
 * summaryDetail, ...), each a dictionary of fields, and it turns into
 * one dictionary from field name to value. A field whose value is a
 * dictionary contributes its 'raw' entry, or nothing when there is none.
 *
 * A JSON object is an association list. A Python dictionary holds every
 * key once and iterates its keys in insertion order, so the dictionaries
 * the loops iterate are lists with distinct keys, in that order.
 */
module QuoteInfo {
  import opened Wrappers

  /** A decoded JSON value. */
  datatype Json =
    | JNull
    | JBool(b: bool)
    | JNumber(n: real)
    | JString(s: string)
    | JArray(items: seq<Json>)
    | JObject(fields: seq<(string, Json)>)

  datatype InfoError =
    | ModuleNotADict   // `info[mainKeys].keys()` on a module that is not a dictionary: AttributeError

  /** The list is a Python dictionary: no key occurs twice. */
  predicate IsDict(fields: seq<(string, Json)>) {
    forall i, j :: 0 <= i < j < |fields| ==> fields[i].0 != fields[j].0
  }

  /** The decoded quote-summary result: a dictionary whose dictionary-valued modules are dictionaries too. */
  predicate WellFormed(info: seq<(string, Json)>) {
    && IsDict(info)
    && forall j :: 0 <= j < |info| && info[j].1.JObject? ==> IsDict(info[j].1.fields)
  }

  /**
   * `d[key]` on a dictionary. On a list that repeats the key the last
   * value is found, the one a JSON decoder keeps.
   */
  function Lookup(fields: seq<(string, Json)>, key: string): (r: Option<Json>)
    ensures r.Some? <==> exists i :: 0 <= i < |fields| && fields[i].0 == key
    ensures r.Some? ==> exists i :: 0 <= i < |fields| && fields[i] == (key, r.value)
                                    && forall j :: i < j < |fields| ==> fields[j].0 != key
  {
    if fields == [] then None
    else if fields[|fields| - 1].0 == key then Some(fields[|fields| - 1].1)
    else
      var init := fields[..|fields| - 1];
      var r := Lookup(init, key);
      assert forall i :: 0 <= i < |init| ==> init[i] == fields[i];
      assert r.Some? ==> exists i :: 0 <= i < |init| && init[i] == (key, r.value)
                                     && forall j :: i < j < |fields| ==> fields[j].0 != key;
      r
  }

  /** In a dictionary the value found under a key is the one stored with it. */
  lemma LookupStored(fields: seq<(string, Json)>, i: nat)
    requires IsDict(fields) && i < |fields|
    ensures Lookup(fields, fields[i].0) == Some(fields[i].1)
  {
    var r := Lookup(fields, fields[i].0);
    var k :| 0 <= k < |fields| && fields[k] == (fields[i].0, r.value)
             && forall j :: k < j < |fields| ==> fields[j].0 != fields[i].0;
    assert k == i;
  }

  /**
   * What one field puts into the result: a value that is not a dictionary
   * itself, a dictionary its 'raw' entry, and a dictionary without one
   * nothing (the KeyError is caught).
   */
  function Contribution(value: Json): (r: Option<Json>)
    ensures !value.JObject? ==> r == Some(value)
    ensures value.JObject? ==> (r.Some? <==> exists i :: 0 <= i < |value.fields| && value.fields[i].0 == "raw")
    ensures value.JObject? && r.Some? ==> exists i :: 0 <= i < |value.fields| && value.fields[i] == ("raw", r.value)
  {
    match value
    case JObject(inner) => Lookup(inner, "raw")
    case _ => Some(value)
  }

  /** `ret` after one more field has been visited: only the field's own key can change. */
  function Put(ret: map<string, Json>, entry: (string, Json)): (r: map<string, Json>)
    ensures Contribution(entry.1).Some? ==> entry.0 in r && r[entry.0] == Contribution(entry.1).value
    ensures Contribution(entry.1).None? ==> r == ret
    ensures forall k :: k != entry.0 ==> (k in r <==> k in ret)
    ensures forall k :: k != entry.0 && k in ret ==> r[k] == ret[k]
  {
    match Contribution(entry.1)
    case Some(v) => ret[entry.0 := v]
    case None => ret
  }

  /** `ret` after visiting the given fields in order: keys are added or overwritten, never removed. */
  function Fill(ret: map<string, Json>, entries: seq<(string, Json)>): (r: map<string, Json>)
    ensures forall k :: k in ret ==> k in r
    ensures forall k :: k in r ==> k in ret || exists i :: 0 <= i < |entries| && entries[i].0 == k
  {
    if entries == [] then ret
    else
      var before := Fill(ret, entries[..|entries| - 1]);
      assert forall i :: 0 <= i < |entries| - 1 ==> entries[..|entries| - 1][i] == entries[i];
      Put(before, entries[|entries| - 1])
  }

  predicate AllDicts(info: seq<(string, Json)>) {
    forall j :: 0 <= j < |info| ==> info[j].1.JObject?
  }

  /** The fields of all modules, module after module. */
  function Entries(info: seq<(string, Json)>): seq<(string, Json)>
    requires AllDicts(info)
  {
    if info == [] then []
    else Entries(info[..|info| - 1]) + info[|info| - 1].1.fields
  }

  /** The flattened dictionary the property returns, or the error when a module is not a dictionary. */
  function Flattened(info: seq<(string, Json)>): (r: Result<map<string, Json>, InfoError>)
    requires WellFormed(info)
    ensures r.Ok? <==> forall j :: 0 <= j < |info| ==> info[j].1.JObject?
  {
    if AllDicts(info) then Ok(Fill(map[], Entries(info))) else Err(ModuleNotADict)
  }

  lemma FillAppend(ret: map<string, Json>, entries: seq<(string, Json)>, entry: (string, Json))
    ensures Fill(ret, entries + [entry]) == Put(Fill(ret, entries), entry)
  {
    assert (entries + [entry])[..|entries|] == entries;
  }

  lemma EntriesAppend(info: seq<(string, Json)>, j: nat)
    requires j < |info| && AllDicts(info[..j + 1])
    ensures AllDicts(info[..j])
    ensures Entries(info[..j + 1]) == Entries(info[..j]) + info[j].1.fields
  {
    assert info[..j + 1][..j] == info[..j];
  }

  /** `Fill` over two runs of fields is `Fill` over the first run, then the second. */
  lemma {:induction false} FillConcat(ret: map<string, Json>, first: seq<(string, Json)>, second: seq<(string, Json)>)
    ensures Fill(Fill(ret, first), second) == Fill(ret, first + second)
    decreases |second|
  {
    if second != [] {
      var init := second[..|second| - 1];
      FillConcat(ret, first, init);
      assert (first + second)[..|first + second| - 1] == first + init;
    } else {
      assert first + second == first;
    }
  }

  /** One field visited: a dictionary gives its 'raw' entry if it has one, anything else is copied. */
  method Visit(ret: map<string, Json>, key: string, value: Json) returns (ret': map<string, Json>)
    ensures ret' == Put(ret, (key, value))
  {
    ret' := ret;
    if value.JObject? {
      match Lookup(value.fields, "raw")
      case Some(raw) => ret' := ret'[key := raw];
      case None =>
    } else {
      ret' := ret'[key := value];
    }
  }

  /** The inner loop: every field of one module visited in order. */
  method VisitModule(ret: map<string, Json>, fields: seq<(string, Json)>) returns (ret': map<string, Json>)
    ensures ret' == Fill(ret, fields)
  {
    ret' := ret;
    var i := 0;
    while i < |fields|
      invariant 0 <= i <= |fields|
      invariant ret' == Fill(ret, fields[..i])
    {
      FillAppend(ret, fields[..i], fields[i]);
      ret' := Visit(ret', fields[i].0, fields[i].1);
      assert fields[..i + 1] == fields[..i] + [fields[i]];
      i := i + 1;
    }
    assert fields[..i] == fields;
  }

  /** The outer loop over the modules, each of which must be a dictionary. */
  method Flatten(info: seq<(string, Json)>) returns (res: Result<map<string, Json>, InfoError>)
    requires WellFormed(info)
    ensures res == Flattened(info)
  {
    var ret: map<string, Json> := map[];
    var j := 0;
    while j < |info|
      invariant 0 <= j <= |info|
      invariant AllDicts(info[..j])
      invariant ret == Fill(map[], Entries(info[..j]))
    {
      var moduleValue := info[j].1;
      if !moduleValue.JObject? {
        assert !AllDicts(info);
        return Err(ModuleNotADict);
      }
      assert AllDicts(info[..j + 1]);
      EntriesAppend(info, j);
      FillConcat(map[], Entries(info[..j]), moduleValue.fields);
      ret := VisitModule(ret, moduleValue.fields);
      j := j + 1;
    }
    assert info[..j] == info;
    return Ok(ret);
  }

  /** A key is in the result exactly when some visited field with that name contributes a value. */
  lemma {:induction false} FillKeys(entries: seq<(string, Json)>, key: string)
    ensures key in Fill(map[], entries)
            <==> exists i :: 0 <= i < |entries| && entries[i].0 == key && Contribution(entries[i].1).Some?
  {
    if entries != [] {
      var init := entries[..|entries| - 1];
      FillKeys(init, key);
      assert forall i :: 0 <= i < |init| ==> init[i] == entries[i];
    }
  }

  /**
   * The value under a key is the contribution of the last field with that
   * name that contributes one: a later module overwrites an earlier one,
   * and a dictionary without 'raw' leaves the earlier value in place.
   */
  lemma {:induction false} FillLast(entries: seq<(string, Json)>, key: string, i: nat)
    requires i < |entries| && entries[i].0 == key && Contribution(entries[i].1).Some?
    requires forall k :: i < k < |entries| && entries[k].0 == key ==> Contribution(entries[k].1).None?
    ensures key in Fill(map[], entries)
    ensures Fill(map[], entries)[key] == Contribution(entries[i].1).value
  {
    var init := entries[..|entries| - 1];
    if i < |entries| - 1 {
      assert forall k :: 0 <= k < |init| ==> init[k] == entries[k];
      FillLast(init, key, i);
    }
  }

  /** Entries of other keys are untouched by a field: the result is a plain overwrite per key. */
  lemma FillOther(entries: seq<(string, Json)>, entry: (string, Json), key: string)
    requires key != entry.0
    ensures (key in Fill(map[], entries + [entry])) == (key in Fill(map[], entries))
    ensures key in Fill(map[], entries) ==> Fill(map[], entries + [entry])[key] == Fill(map[], entries)[key]
  {
    assert (entries + [entry])[..|entries|] == entries;
  }

  /**
   * Whatever the earlier modules hold under `key`, the result takes the
   * value the last module gives it, when that module's field of that name
   * contributes one.
   */
  lemma LastModuleWins(info: seq<(string, Json)>, key: string, i: nat)
    requires WellFormed(info) && |info| > 0 && AllDicts(info)
    requires i < |info[|info| - 1].1.fields|
    requires info[|info| - 1].1.fields[i].0 == key
    requires Contribution(info[|info| - 1].1.fields[i].1).Some?
    ensures Flattened(info).Ok?
    ensures key in Flattened(info).value
    ensures Flattened(info).value[key] == Contribution(info[|info| - 1].1.fields[i].1).value
  {
    var last := info[|info| - 1].1.fields;
    assert IsDict(last);
    var before := Entries(info[..|info| - 1]);
    var es := Entries(info);
    assert es == before + last;
    forall k | |before| + i < k < |es|
      ensures es[k].0 != key
    {
      assert es[k] == last[k - |before|];
    }
    FillLast(es, key, |before| + i);
  }

  /** Filling from one dictionary stores, under each of its keys, the contribution of the value stored there. */
  lemma FillDict(fields: seq<(string, Json)>, key: string)
    requires IsDict(fields)
    ensures key in Fill(map[], fields) <==> Lookup(fields, key).Some? && Contribution(Lookup(fields, key).value).Some?
    ensures key in Fill(map[], fields) ==> Fill(map[], fields)[key] == Contribution(Lookup(fields, key).value).value
  {
    FillKeys(fields, key);
    if i :| 0 <= i < |fields| && fields[i].0 == key {
      LookupStored(fields, i);
      if Contribution(fields[i].1).Some? {
        FillLast(fields, key, i);
      }
    }
  }

  /** A single module flattens to the dictionary `FillDict` describes. */
  lemma OneModule(name: string, fields: seq<(string, Json)>)
    requires IsDict(fields)
    ensures WellFormed([(name, JObject(fields))])
    ensures Flattened([(name, JObject(fields))]) == Ok(Fill(map[], fields))
  {
    var info := [(name, JObject(fields))];
    assert info[..0] == [];
    assert Entries(info) == fields;
  }
}
