/** The configuration document as `yaml.safe_load` hands it over: an ordered, nested tree
    whose mappings are sequences of entries with first-match lookup, in-place update that
    keeps a key where it is, and insertion of a new key at the end; on mappings with unique
    keys, as every dict is, this is dict behaviour. Also the config-path guard. */
module Document {
  import opened Outcome

  /** A YAML floating-point scalar. The modelled code only ever copies such values. */
  type Float(==)

  datatype Node =
    | Null
    | Bool(b: bool)
    | Int(i: int)
    | Real(f: Float)
    | Str(s: string)
    | Items(elems: seq<Node>)
    | Mapping(entries: seq<Entry>)

  datatype Entry = Entry(key: string, value: Node)

  /** The keys of a mapping, in document order. */
  function Keys(entries: seq<Entry>): (ks: seq<string>)
    ensures |ks| == |entries|
    ensures forall i :: 0 <= i < |entries| ==> ks[i] == entries[i].key
  {
    if |entries| == 0 then [] else [entries[0].key] + Keys(entries[1..])
  }

  /** Position of the first entry carrying `key`. */
  function Find(entries: seq<Entry>, key: string): (r: Option<nat>)
    ensures r.Some? ==> r.value < |entries| && entries[r.value].key == key
    ensures r.Some? ==> forall j :: 0 <= j < r.value ==> entries[j].key != key
    ensures r.None? ==> forall j :: 0 <= j < |entries| ==> entries[j].key != key
  {
    if |entries| == 0 then None
    else if entries[0].key == key then Some(0)
    else match Find(entries[1..], key)
      case None => None
      case Some(i) => Some(i + 1)
  }

  /** The value stored under `key`, if any. */
  function Lookup(entries: seq<Entry>, key: string): Option<Node> {
    match Find(entries, key)
    case None => None
    case Some(i) => Some(entries[i].value)
  }

  /** Python `node[key]` for a string key: dicts yield the value or raise KeyError, every
      other value (None, scalars, lists) raises TypeError. */
  function Index(node: Node, key: string): (r: Result<Node>)
    ensures !node.Mapping? ==> r == Stop(Raise(TypeError))
    ensures node.Mapping? ==> (r.Ok? <==> key in Keys(node.entries))
    ensures node.Mapping? && r.Stop? ==> r == Stop(Raise(KeyError(key)))
    ensures r.Ok? ==> Lookup(node.entries, key) == Some(r.value)
    ensures r.Ok? ==> exists i :: 0 <= i < |node.entries| && node.entries[i] == Entry(key, r.value)
  {
    if !node.Mapping? then Stop(Raise(TypeError))
    else
      FoundIffKey(node.entries, key);
      match Lookup(node.entries, key)
      case None => Stop(Raise(KeyError(key)))
      case Some(v) => Ok(v)
  }

  /** Python `d[key] = v` on a dict: an existing key keeps its position and gets the new
      value; a new key is appended. */
  function Put(entries: seq<Entry>, key: string, v: Node): (r: seq<Entry>)
    ensures Keys(r) == if key in Keys(entries) then Keys(entries) else Keys(entries) + [key]
    ensures forall i :: 0 <= i < |entries| && entries[i].key != key ==> r[i] == entries[i]
    ensures Lookup(r, key) == Some(v)
    ensures forall k :: k != key ==> Lookup(r, k) == Lookup(entries, k)
  {
    FoundIffKey(entries, key);
    match Find(entries, key)
    case Some(i) =>
      ReplaceKeepsLookups(entries, i, Entry(key, v));
      entries[i := Entry(key, v)]
    case None =>
      AppendKeepsLookups(entries, Entry(key, v));
      entries + [Entry(key, v)]
  }

  /** Overwriting the first entry of a key: same keys, the new value under that key, every
      other lookup as before. */
  lemma ReplaceKeepsLookups(entries: seq<Entry>, i: nat, e: Entry)
    requires Find(entries, e.key) == Some(i)
    ensures Keys(entries[i := e]) == Keys(entries)
    ensures Lookup(entries[i := e], e.key) == Some(e.value)
    ensures forall k :: k != e.key ==> Lookup(entries[i := e], k) == Lookup(entries, k)
  {
    var r := entries[i := e];
    assert Keys(r) == Keys(entries);
    FindFollowsKeys(r, entries, e.key);
    forall k | k != e.key ensures Lookup(r, k) == Lookup(entries, k) {
      FindFollowsKeys(r, entries, k);
    }
  }

  /** Appending an entry for a new key: that key is added last, every other lookup is as
      before. */
  lemma AppendKeepsLookups(entries: seq<Entry>, e: Entry)
    requires Find(entries, e.key).None?
    ensures Keys(entries + [e]) == Keys(entries) + [e.key]
    ensures Lookup(entries + [e], e.key) == Some(e.value)
    ensures forall k :: k != e.key ==> Lookup(entries + [e], k) == Lookup(entries, k)
  {
    var r := entries + [e];
    assert Keys(r) == Keys(entries) + [e.key];
    FindFirst(r, e.key, |entries|);
    forall k | k != e.key ensures Lookup(r, k) == Lookup(entries, k) {
      FindInExtension(entries, e, k);
    }
  }

  /** `Find` is characterised by its contract: the first matching position. */
  lemma FindFirst(entries: seq<Entry>, key: string, i: nat)
    requires i < |entries| && entries[i].key == key
    requires forall j :: 0 <= j < i ==> entries[j].key != key
    ensures Find(entries, key) == Some(i)
  {
  }

  /** A key is found exactly when it is among the mapping's keys. */
  lemma FoundIffKey(entries: seq<Entry>, key: string)
    ensures Find(entries, key).Some? <==> key in Keys(entries)
  {
    match Find(entries, key)
    case Some(i) =>
      assert Keys(entries)[i] == key;
    case None =>
  }

  /** `Find` depends only on the sequence of keys. */
  lemma FindFollowsKeys(a: seq<Entry>, b: seq<Entry>, key: string)
    requires Keys(a) == Keys(b)
    ensures Find(a, key) == Find(b, key)
  {
    assert |a| == |Keys(a)| == |Keys(b)| == |b|;
    assert forall j :: 0 <= j < |a| ==> a[j].key == Keys(a)[j] == Keys(b)[j] == b[j].key;
    match Find(b, key)
    case None =>
    case Some(i) => FindFirst(a, key, i);
  }

  /** Appending an entry for another key does not change where a key is found. */
  lemma FindInExtension(entries: seq<Entry>, e: Entry, key: string)
    requires e.key != key
    ensures Find(entries + [e], key) == Find(entries, key)
  {
    match Find(entries, key)
    case None =>
    case Some(i) => FindFirst(entries + [e], key, i);
  }

  /** A mapping as `yaml.safe_load` builds it, a Python dict: no key occurs twice (PyYAML
      keeps only the last value of a key repeated in the text). */
  predicate UniqueKeys(entries: seq<Entry>) {
    forall i, j :: 0 <= i < j < |entries| ==> entries[i].key != entries[j].key
  }

  /** On such a mapping the value `Lookup` finds is that of the one entry with the key, so
      reading the first match is reading the dict. */
  lemma UniqueLookup(entries: seq<Entry>, key: string, v: Node)
    requires UniqueKeys(entries)
    ensures Lookup(entries, key) == Some(v) <==> Entry(key, v) in entries
  {
    if Entry(key, v) in entries {
      var j :| 0 <= j < |entries| && entries[j] == Entry(key, v);
      FindFirst(entries, key, j);
    }
  }

  /** `d[k] = v` keeps the keys of a dict unique. */
  lemma PutKeepsUnique(entries: seq<Entry>, key: string, v: Node)
    requires UniqueKeys(entries)
    ensures UniqueKeys(Put(entries, key, v))
  {
    var r := Put(entries, key, v);
    assert forall i :: 0 <= i < |r| ==> r[i].key == Keys(r)[i];
    FoundIffKey(entries, key);
  }

  /** The integer Python sees where it does integer arithmetic on a config value:
      ints, and bools (a Python bool is an int). */
  function IntValue(n: Node): Option<int> {
    match n
    case Int(i) => Some(i)
    case Bool(b) => Some(if b then 1 else 0)
    case _ => None
  }

  predicate EndsWith(s: string, suffix: string) {
    |suffix| <= |s| && s[|s| - |suffix|..] == suffix
  }

  /** `path.endswith((".yaml", ".yml"))`. */
  predicate HasConfigSuffix(path: string) {
    EndsWith(path, ".yaml") || EndsWith(path, ".yml")
  }

  /** The guard accepts exactly the paths that are some stem followed by ".yaml" or ".yml". */
  lemma ConfigSuffixIff(path: string)
    ensures HasConfigSuffix(path) <==> exists stem :: path == stem + ".yaml" || path == stem + ".yml"
  {
    if EndsWith(path, ".yaml") {
      var stem := path[..|path| - 5];
      assert path == stem + ".yaml";
    } else if EndsWith(path, ".yml") {
      var stem := path[..|path| - 4];
      assert path == stem + ".yml";
    }
    if exists stem :: path == stem + ".yaml" || path == stem + ".yml" {
      var stem :| path == stem + ".yaml" || path == stem + ".yml";
      if path == stem + ".yaml" {
        assert path[|path| - 5..] == ".yaml";
      } else {
        assert path[|path| - 4..] == ".yml";
      }
    }
  }
}
