/**
 * The item pipelines: the duplicate filter every scraped item passes
 * through, and the rule that names the file each item is written to.
 */
module Pipelines {
  import opened Text
  import opened Records
  import opened Items

  // ---------------------------------------------------------------------
  // DuplicatesPipeline

  /** What `process_item` does with an item: return it, drop it, or raise. */
  datatype Verdict = Keep(item: Record) | Drop | Raise(error: Failure)

  /** A (item class, key) pair, as kept in `items_seen`. */
  type SeenKey = (ItemClass, Value)

  /** Values Python can hash: a list or a dict cannot be put in a set. */
  predicate Hashable(v: Value) {
    !v.Arr? && !v.Obj?
  }

  /**
   * The key of an `identifiers` value: for a list, the first element's
   * identifier, prefixed by "scheme/" when its scheme is set and non-empty;
   * for anything else, the value itself.
   */
  function IdentifiersKey(identifiers: Value): (r: Result<Value>)
    ensures !identifiers.Arr? ==> r == Ok(identifiers)
    ensures identifiers == Arr([]) ==> r == Err(IndexError)
    ensures identifiers.Arr? && identifiers.items != [] ==>
      var first := identifiers.items[0];
      (r.Ok? <==> first.Obj? && "identifier" in first.fields)
      && (r.Ok? && Truthy(Get(first.fields, "scheme")) ==>
            r.value == Str(Show(first.fields["scheme"]) + "/" + Show(first.fields["identifier"])))
      && (r.Ok? && !Truthy(Get(first.fields, "scheme")) ==> r.value == first.fields["identifier"])
  {
    if identifiers.Arr? then
      var identifier :- First(identifiers);
      var k :- Field(identifier, "identifier");
      var scheme := Get(identifier.fields, "scheme");
      if Truthy(scheme) then Ok(Str(Show(scheme) + "/" + Show(k))) else Ok(k)
    else
      Ok(identifiers)
  }

  /**
   * The entry an item takes in the seen set: None for an item without
   * identifiers, an error when the key cannot be computed or hashed.
   */
  function SeenEntry(kind: ItemClass, item: Record): (r: Result<Option<SeenKey>>)
    ensures "identifiers" !in item <==> r == Ok(None)
    ensures r.Ok? && r.value.Some? ==> r.value.value.0 == kind && Hashable(r.value.value.1)
    ensures "identifiers" in item && IdentifiersKey(item["identifiers"]).Ok? && Hashable(IdentifiersKey(item["identifiers"]).value)
      ==> r == Ok(Some((kind, IdentifiersKey(item["identifiers"]).value)))
  {
    if "identifiers" in item then
      var k :- IdentifiersKey(item["identifiers"]);
      if Hashable(k) then Ok(Some((kind, k))) else Err(TypeError)
    else
      Ok(None)
  }

  /**
   * `process_item` on the seen set: the new seen set and the verdict. A
   * first-seen entry is added and the item returned unchanged; an entry
   * already seen drops the item; an item without identifiers passes and
   * leaves the set as it was.
   */
  function Process(seen: set<SeenKey>, kind: ItemClass, item: Record): (r: (set<SeenKey>, Verdict))
    ensures r.1.Keep? ==> r.1.item == item
    ensures r.1.Raise? <==> SeenEntry(kind, item).Err?
    ensures SeenEntry(kind, item) == Ok(None) ==> r == (seen, Keep(item))
    ensures SeenEntry(kind, item).Ok? && SeenEntry(kind, item).value.Some? ==>
      var t := SeenEntry(kind, item).value.value;
      (r.1.Drop? <==> t in seen) && r.0 == seen + {t}
    ensures !r.1.Keep? ==> r.0 == seen
  {
    match SeenEntry(kind, item)
    case Err(e) => (seen, Raise(e))
    case Ok(None) => (seen, Keep(item))
    case Ok(Some(t)) => if t in seen then (seen, Drop) else (seen + {t}, Keep(item))
  }

  /** The pipeline as an object that keeps `items_seen` across calls. */
  class DuplicatesPipeline {
    var itemsSeen: set<SeenKey>

    constructor()
      ensures itemsSeen == {}
    {
      itemsSeen := {};
    }

    method ProcessItem(kind: ItemClass, item: Record) returns (v: Verdict)
      modifies this
      ensures (itemsSeen, v) == Process(old(itemsSeen), kind, item)
    {
      if "identifiers" in item {
        var key := IdentifiersKey(item["identifiers"]);
        if key.Err? {
          return Raise(key.error);
        }
        var k := key.value;
        if !Hashable(k) {
          return Raise(TypeError);
        }
        var t := (kind, k);
        if t in itemsSeen {
          return Drop;
        }
        itemsSeen := itemsSeen + {t};
      }
      v := Keep(item);
    }
  }

  /** A second item of the same class with the same key as a kept one is dropped. */
  lemma SecondIsDropped(seen: set<SeenKey>, kind: ItemClass, a: Record, b: Record)
    requires "identifiers" in a && "identifiers" in b
    requires IdentifiersKey(a["identifiers"]) == IdentifiersKey(b["identifiers"])
    requires Process(seen, kind, a).1.Keep?
    ensures Process(Process(seen, kind, a).0, kind, b).1 == Drop
  {
    assert SeenEntry(kind, a) == SeenEntry(kind, b);
  }

  /**
   * Keys are paired with the item class: an item of another class with an
   * equal key is kept if its own class has not seen that key.
   */
  lemma ClassesSeparate(seen: set<SeenKey>, kindA: ItemClass, a: Record, kindB: ItemClass, b: Record)
    requires kindA != kindB
    requires SeenEntry(kindB, b).Ok? && SeenEntry(kindB, b).value.Some?
    requires SeenEntry(kindB, b).value.value !in seen
    ensures Process(Process(seen, kindA, a).0, kindB, b).1 == Keep(b)
  {
    var t := SeenEntry(kindB, b).value.value;
    var seenA := Process(seen, kindA, a).0;
    assert t.0 == kindB;
    assert t !in seenA by {
      var e := SeenEntry(kindA, a);
      assert seenA == seen || (e.Ok? && e.value.Some? && seenA == seen + {e.value.value} && e.value.value.0 == kindA);
    }
  }

  /** The scrape as a stream of items through one pipeline: the final seen set and the verdicts. */
  function ProcessAll(seen: set<SeenKey>, stream: seq<(ItemClass, Record)>): (r: (set<SeenKey>, seq<Verdict>))
    ensures |r.1| == |stream| && seen <= r.0
    decreases |stream|
  {
    if stream == [] then (seen, [])
    else
      var (seen1, v) := Process(seen, stream[0].0, stream[0].1);
      var (seen2, vs) := ProcessAll(seen1, stream[1..]);
      (seen2, [v] + vs)
  }

  /** Item `i` of the stream was kept, with `t` as its seen-set entry. */
  predicate KeptWith(stream: seq<(ItemClass, Record)>, verdicts: seq<Verdict>, i: int, t: SeenKey) {
    0 <= i < |stream| && i < |verdicts| && verdicts[i].Keep? && SeenEntry(stream[i].0, stream[i].1) == Ok(Some(t))
  }

  /**
   * Over a whole stream, the kept items with identifiers have pairwise
   * distinct (class, key) entries, none of them seen before the stream, and
   * all of them in the final seen set.
   */
  lemma {:induction false} KeptAreDistinct(seen: set<SeenKey>, stream: seq<(ItemClass, Record)>)
    ensures var (final, verdicts) := ProcessAll(seen, stream);
      (forall i, t :: KeptWith(stream, verdicts, i, t) ==> t !in seen && t in final)
      && (forall i, j, t :: 0 <= i < j && KeptWith(stream, verdicts, i, t) ==> !KeptWith(stream, verdicts, j, t))
    decreases |stream|
  {
    if stream != [] {
      var (seen1, v) := Process(seen, stream[0].0, stream[0].1);
      var rest := stream[1..];
      KeptAreDistinct(seen1, rest);
      var (final, verdicts) := ProcessAll(seen, stream);
      var restVerdicts := ProcessAll(seen1, rest).1;
      assert final == ProcessAll(seen1, rest).0 && verdicts == [v] + restVerdicts;
      assert seen <= seen1 <= final;
      forall i, t | KeptWith(stream, verdicts, i, t)
        ensures t !in seen && t in final
      {
        if i > 0 {
          assert KeptWith(rest, restVerdicts, i - 1, t);
        } else {
          assert v.Keep? && SeenEntry(stream[0].0, stream[0].1) == Ok(Some(t));
        }
      }
      forall i, j, t | 0 <= i < j && KeptWith(stream, verdicts, i, t)
        ensures !KeptWith(stream, verdicts, j, t)
      {
        if KeptWith(stream, verdicts, j, t) {
          assert KeptWith(rest, restVerdicts, j - 1, t);
          if i > 0 {
            assert KeptWith(rest, restVerdicts, i - 1, t);
          }
        }
      }
    }
  }

  // ---------------------------------------------------------------------
  // ExportPipeline.get_filename

  /** A directory path ready for a relative name to be appended. */
  function Separated(a: string): (r: string)
    ensures r == [] || r[|r| - 1] == '/'
    ensures StartsWith(r, a) && |r| <= |a| + 1
  {
    if a == [] || a[|a| - 1] == '/' then a else a + "/"
  }

  /** `os.path.join(a, b)`: an absolute `b` replaces `a`; otherwise a '/' separates them when needed. */
  function PathJoin(a: string, b: string): (r: string)
    ensures b != [] && b[0] == '/' ==> r == b
    ensures (b == [] || b[0] != '/') ==> r == Separated(a) + b
  {
    if b != [] && b[0] == '/' then b
    else if a == [] || a[|a| - 1] == '/' then a + b
    else a + "/" + b
  }

  /** `os.path.join(OUTPUT_PATH, spider.name, item.__class__.__name__ + '.json')` */
  function GetFilename(outputPath: string, spiderName: string, kind: ItemClass): string {
    PathJoin(PathJoin(outputPath, spiderName), ClassName(kind) + ".json")
  }

  /** A "<name>.json" file joined to a directory follows it after one '/'. */
  lemma JoinFile(dir: string, name: string)
    requires name != [] && '/' !in name
    ensures PathJoin(dir, name + ".json") == Separated(dir) + (name + ".json")
    ensures dir != [] ==> EndsWith(PathJoin(dir, name + ".json"), "/" + (name + ".json"))
  {
    var file := name + ".json";
    assert file[0] == name[0];
    if dir != [] {
      var f := PathJoin(dir, file);
      assert f[|f| - |file| - 1..] == "/" + file;
    }
  }

  /** The file name is the joined directory followed by "<ItemClassName>.json". */
  lemma FilenameOfClass(outputPath: string, spiderName: string, kind: ItemClass)
    ensures GetFilename(outputPath, spiderName, kind)
         == Separated(PathJoin(outputPath, spiderName)) + (ClassName(kind) + ".json")
    ensures spiderName != [] ==> EndsWith(GetFilename(outputPath, spiderName, kind), "/" + (ClassName(kind) + ".json"))
  {
    JoinFile(PathJoin(outputPath, spiderName), ClassName(kind));
  }

  /** Items of different classes go to different files. */
  lemma FilenamesSeparateClasses(outputPath: string, spiderName: string, a: ItemClass, b: ItemClass)
    requires GetFilename(outputPath, spiderName, a) == GetFilename(outputPath, spiderName, b)
    ensures a == b
  {
    FilenameOfClass(outputPath, spiderName, a);
    FilenameOfClass(outputPath, spiderName, b);
    var dir := Separated(PathJoin(outputPath, spiderName));
    var na := ClassName(a);
    var nb := ClassName(b);
    assert dir + (na + ".json") == dir + (nb + ".json");
    assert na + ".json" == nb + ".json" by {
      assert na + ".json" == (dir + (na + ".json"))[|dir|..];
      assert nb + ".json" == (dir + (nb + ".json"))[|dir|..];
    }
    assert na == (na + ".json")[..|na|];
    assert nb == (nb + ".json")[..|nb|];
    ClassNameInjective(a, b);
  }

  /** `VisegradApiExport.FILES`: the file each export source is read from. */
  const ExportFiles: map<string, string> := map[
    "people" := "Person.json",
    "organizations" := "Organization.json",
    "memberships" := "Membership.json",
    "motions" := "Motion.json",
    "vote-events" := "VoteEvent.json",
    "votes" := "Vote.json"]

  /** The item class whose file an export source reads. */
  function SourceClass(source: string): (k: ItemClass)
    requires source in ExportFiles
    ensures ExportFiles[source] == ClassName(k) + ".json"
  {
    match source
    case "people" => Person
    case "organizations" => Organization
    case "memberships" => Membership
    case "motions" => Motion
    case "vote-events" => VoteEvent
    case _ => Vote
  }
}
