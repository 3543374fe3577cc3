/** The persistent settings store: the child elements of the one `settings`
    element of an XML document, each `<key>value</key>`. Loading and saving
    the file are I/O; the saved copy is kept as a ghost field. */
module SettingsManager {
  import opened Wrappers

  const KeyHashCode: string := "hashcode"
  const KeyAllowance: string := "allowance"

  /** One child element of `settings`. */
  datatype Setting = Setting(key: string, value: string)

  /** The position of the first element named `key`, as `XContainer.Element`
      finds it. */
  function FindElement(elements: seq<Setting>, key: string): (r: Option<nat>)
    ensures r.Some? ==> r.value < |elements| && elements[r.value].key == key
    ensures r.Some? ==> forall j :: 0 <= j < r.value ==> elements[j].key != key
    ensures r.None? <==> forall j :: 0 <= j < |elements| ==> elements[j].key != key
  {
    if |elements| == 0 then None
    else if elements[0].key == key then Some(0)
    else match FindElement(elements[1..], key)
      case None => None
      case Some(i) => Some(i + 1)
  }

  /** The value GetSetting returns: the first matching element's text, or the
      empty string when there is none. */
  function Lookup(elements: seq<Setting>, key: string): (value: string)
    ensures (forall j :: 0 <= j < |elements| ==> elements[j].key != key) ==> value == ""
    ensures (exists j :: 0 <= j < |elements| && elements[j].key == key) ==>
              exists j :: 0 <= j < |elements| && elements[j].key == key && elements[j].value == value
  {
    match FindElement(elements, key)
    case Some(i) => elements[i].value
    case None => ""
  }

  /** The elements after SetSetting: the first element named `key` gets the
      new text, or a new element is added after the last one. */
  function Store(elements: seq<Setting>, key: string, value: string): (r: seq<Setting>)
    ensures |r| == |elements| || r == elements + [Setting(key, value)]
  {
    match FindElement(elements, key)
    case Some(i) => elements[i := Setting(key, value)]
    case None => elements + [Setting(key, value)]
  }

  /** No two elements share a name. */
  predicate UniqueKeys(elements: seq<Setting>)
  {
    forall i, j :: 0 <= i < j < |elements| ==> elements[i].key != elements[j].key
  }

  /** The store seen as a dictionary; where names repeat (a hand-edited file),
      the first element wins, as it does for GetSetting. */
  function AsMap(elements: seq<Setting>): (m: map<string, string>)
    ensures forall k :: k in m <==> exists j :: 0 <= j < |elements| && elements[j].key == k
  {
    if |elements| == 0 then map[]
    else AsMap(elements[1..])[elements[0].key := elements[0].value]
  }

  /** The settings of a sequence of SetSetting calls, applied in order. */
  function StoreAll(elements: seq<Setting>, writes: seq<Setting>): seq<Setting>
    decreases |writes|
  {
    if |writes| == 0 then elements
    else StoreAll(Store(elements, writes[0].key, writes[0].value), writes[1..])
  }

  lemma GetAfterSet(elements: seq<Setting>, key: string, value: string)
    ensures Lookup(Store(elements, key, value), key) == value
  {
    var r := Store(elements, key, value);
    match FindElement(elements, key)
    case Some(i) =>
      assert r[i].key == key;
      assert FindElement(r, key) == Some(i);
    case None =>
      assert r[|elements|].key == key;
      assert FindElement(r, key) == Some(|elements|);
  }

  lemma SetExistingInPlace(elements: seq<Setting>, key: string, value: string, i: nat)
    requires i < |elements| && elements[i].key == key
    requires forall j :: 0 <= j < i ==> elements[j].key != key
    ensures Store(elements, key, value) == elements[i := Setting(key, value)]
    ensures |Store(elements, key, value)| == |elements|
  {
    assert FindElement(elements, key) == Some(i);
  }

  lemma SetNewAppends(elements: seq<Setting>, key: string, value: string)
    requires forall j :: 0 <= j < |elements| ==> elements[j].key != key
    ensures Store(elements, key, value) == elements + [Setting(key, value)]
  {
  }

  lemma SetLeavesOthers(elements: seq<Setting>, key: string, value: string, other: string)
    requires other != key
    ensures Lookup(Store(elements, key, value), other) == Lookup(elements, other)
  {
    var r := Store(elements, key, value);
    match FindElement(elements, other)
    case Some(i) =>
      assert r[i] == elements[i];
      assert FindElement(r, other) == Some(i);
    case None =>
      assert FindElement(r, other) == None;
  }

  lemma SetKeepsKeysUnique(elements: seq<Setting>, key: string, value: string)
    requires UniqueKeys(elements)
    ensures UniqueKeys(Store(elements, key, value))
  {
  }

  lemma {:induction false} KeysStayUnique(elements: seq<Setting>, writes: seq<Setting>)
    requires UniqueKeys(elements)
    ensures UniqueKeys(StoreAll(elements, writes))
    decreases |writes|
  {
    if |writes| > 0 {
      SetKeepsKeysUnique(elements, writes[0].key, writes[0].value);
      KeysStayUnique(Store(elements, writes[0].key, writes[0].value), writes[1..]);
    }
  }

  /** From the fresh document (`<settings/>`), names never repeat. */
  lemma FreshStoreStaysUnique(writes: seq<Setting>)
    ensures UniqueKeys(StoreAll([], writes))
  {
    KeysStayUnique([], writes);
  }

  lemma {:induction false} LookupIsMap(elements: seq<Setting>, key: string)
    ensures Lookup(elements, key) == if key in AsMap(elements) then AsMap(elements)[key] else ""
  {
    if |elements| > 0 && elements[0].key != key {
      LookupIsMap(elements[1..], key);
      match FindElement(elements[1..], key)
      case Some(i) => assert FindElement(elements, key) == Some(i + 1);
      case None =>
    }
  }

  lemma StoreKeys(elements: seq<Setting>, key: string, value: string, k: string)
    ensures (exists j :: 0 <= j < |Store(elements, key, value)| && Store(elements, key, value)[j].key == k)
            <==> k == key || exists j :: 0 <= j < |elements| && elements[j].key == k
  {
    var r := Store(elements, key, value);
    var found := FindElement(elements, key);
    if k == key {
      var w := if found.Some? then found.value else |elements|;
      assert r[w].key == k;
    } else {
      if exists j :: 0 <= j < |elements| && elements[j].key == k {
        var j :| 0 <= j < |elements| && elements[j].key == k;
        assert r[j].key == k;
      }
      if exists j :: 0 <= j < |r| && r[j].key == k {
        var j :| 0 <= j < |r| && r[j].key == k;
        assert elements[j].key == k;
      }
    }
  }

  /** SetSetting is a map update on the dictionary view of the store. */
  lemma {:induction false} StoreIsMapUpdate(elements: seq<Setting>, key: string, value: string)
    ensures AsMap(Store(elements, key, value)) == AsMap(elements)[key := value]
  {
    var r := Store(elements, key, value);
    forall k
      ensures k in AsMap(r) <==> k in AsMap(elements)[key := value]
      ensures k in AsMap(r) ==> AsMap(r)[k] == AsMap(elements)[key := value][k]
    {
      StoreKeys(elements, key, value, k);
      LookupIsMap(r, k);
      LookupIsMap(elements, k);
      if k == key {
        GetAfterSet(elements, key, value);
      } else {
        SetLeavesOthers(elements, key, value, k);
      }
    }
  }

  /** The settings document held in memory for the life of the application. */
  class SettingsStore {
    /** The child elements of `settings`, in document order. */
    var elements: seq<Setting>
    /** What was last written to (or read from) the settings file. */
    ghost var persisted: Option<seq<Setting>>

    /** Opens the store: the loaded file's elements, or an empty `settings`
        element when the file does not exist (nothing is written yet). */
    constructor (loaded: Option<seq<Setting>>)
      ensures elements == (if loaded.Some? then loaded.value else [])
      ensures persisted == loaded
    {
      elements := if loaded.Some? then loaded.value else [];
      persisted := loaded;
    }

    /** The first element's text for `key`, or the empty string. */
    function GetSetting(key: string): (value: string)
      reads this
      ensures value == if key in AsMap(elements) then AsMap(elements)[key] else ""
    {
      LookupIsMap(elements, key);
      Lookup(elements, key)
    }

    /** Updates the first element named `key`, or appends one, then saves. */
    method SetSetting(key: string, value: string)
      modifies this
      ensures elements == Store(old(elements), key, value)
      ensures AsMap(elements) == AsMap(old(elements))[key := value]
      ensures GetSetting(key) == value
      ensures forall k :: k != key ==> GetSetting(k) == old(GetSetting(k))
      ensures persisted == Some(elements)
    {
      StoreIsMapUpdate(elements, key, value);
      GetAfterSet(elements, key, value);
      var found := FindElement(elements, key);
      if found.Some? {
        elements := elements[found.value := Setting(key, value)];
      } else {
        elements := elements + [Setting(key, value)];
      }
      persisted := Some(elements);
    }
  }
}
