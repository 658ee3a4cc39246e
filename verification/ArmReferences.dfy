/**
 The extractor that finds Azure resource ids inside a resource's JSON properties.

 It walks at most 12 levels down, looks at the first 1000 elements of a list, and keeps one
 candidate per normalised id in a dictionary whose entries stay in insertion order.
 */
module ArmReferences {
  import opened Prelude
  import opened Text

  datatype Json =
    | Null
    | Boolean(b: bool)
    | Number(n: int)
    | String(s: string)
    | List(items: seq<Json>)
    | Object(fields: seq<(string, Json)>)

  datatype EdgeCandidate = EdgeCandidate(
    target: string,
    relationshipType: string,
    dependencyStrength: string,
    confidence: real,
    evidencePath: string)

  const EXTRACTOR_NAME := "arm-reference"
  const EXTRACTOR_VERSION := "1.0.0"
  const IGNORED_SUFFIX := "/providers/microsoft.insights/diagnosticsettings"
  const MAX_DEPTH: nat := 12
  const MAX_ITEMS: nat := 1000

  predicate Supports(resourceType: string) {
    "microsoft." <= resourceType
  }

  function Normalize(s: string): string {
    Lower(Strip(s))
  }

  predicate Qualifies(normalized: string) {
    && "/subscriptions/" <= normalized
    && Contains(normalized, "/providers/")
    && !EndsWith(normalized, IGNORED_SUFFIX)
  }

  lemma SupportsExactly(resourceType: string)
    ensures Supports(resourceType) <==> exists rest: string :: resourceType == "microsoft." + rest
  {
    if Supports(resourceType) {
      assert resourceType == "microsoft." + resourceType[10..];
    }
  }

  // An ARM id: it begins with a subscription, names a provider, and is not a diagnostic setting.
  ghost predicate IsArmId(s: string) {
    && (exists rest: string :: s == "/subscriptions/" + rest)
    && (exists before: string, after: string :: s == before + "/providers/" + after)
    && !(exists before: string :: s == before + "/providers/microsoft.insights/diagnosticsettings")
  }

  lemma QualifiesExactly(s: string)
    ensures Qualifies(s) <==> IsArmId(s)
  {
    ContainsExactly(s, "/providers/");
    EndsWithExactly(s, "/providers/microsoft.insights/diagnosticsettings");
    if Qualifies(s) {
      assert s == "/subscriptions/" + s[15..];
    }
  }

  // ---------- the insertion-ordered dictionary ----------

  // A find: the normalised id and the rendered path where it was found.
  type Hit = (string, string)

  function CandidateFor(hit: Hit): EdgeCandidate {
    EdgeCandidate(hit.0, "references", "hard", 1.0, hit.1)
  }

  function IndexOf(candidates: seq<EdgeCandidate>, target: string): (r: Option<nat>)
    ensures r.Some? ==> r.value < |candidates| && candidates[r.value].target == target
    ensures r.None? ==> forall c :: c in candidates ==> c.target != target
  {
    if candidates == [] then None
    else if Last(candidates).target == target then Some(|candidates| - 1)
    else IndexOf(Front(candidates), target)
  }

  // Assigning to an existing key keeps its place; a new key goes to the end.
  function Put(candidates: seq<EdgeCandidate>, hit: Hit): seq<EdgeCandidate> {
    match IndexOf(candidates, hit.0)
    case Some(i) => candidates[i := CandidateFor(hit)]
    case None => candidates + [CandidateFor(hit)]
  }

  function PutAll(candidates: seq<EdgeCandidate>, hits: seq<Hit>): seq<EdgeCandidate> {
    if hits == [] then candidates else Put(PutAll(candidates, Front(hits)), Last(hits))
  }

  lemma PutAllOneMore(candidates: seq<EdgeCandidate>, hits: seq<Hit>, hit: Hit)
    ensures PutAll(candidates, hits + [hit]) == Put(PutAll(candidates, hits), hit)
  {
    assert Front(hits + [hit]) == hits;
  }

  lemma {:induction false} PutAllConcat(candidates: seq<EdgeCandidate>, a: seq<Hit>, b: seq<Hit>)
    ensures PutAll(candidates, a + b) == PutAll(PutAll(candidates, a), b)
  {
    if b == [] {
      assert a + b == a;
    } else {
      PutAllConcat(candidates, a, Front(b));
      PutAllOneMore(candidates, a + Front(b), Last(b));
      assert a + b == a + Front(b) + [Last(b)];
    }
  }

  // ---------- the walk ----------

  // Everything found below `value`, in document order.
  function Hits(value: Json, path: string, depth: nat): seq<Hit>
    requires depth <= MAX_DEPTH + 1
    decreases MAX_DEPTH + 1 - depth, 1, 0
  {
    if depth > MAX_DEPTH then []
    else
      match value
      case Object(fields) => FieldHits(fields, path, depth)
      case List(items) => ItemHits(items[..Min(|items|, MAX_ITEMS)], path, depth)
      case String(s) => if Qualifies(Normalize(s)) then [(Normalize(s), path)] else []
      case _ => []
  }

  function FieldHits(fields: seq<(string, Json)>, path: string, depth: nat): seq<Hit>
    requires depth <= MAX_DEPTH
    decreases MAX_DEPTH + 1 - depth, 0, |fields|
  {
    if fields == [] then []
    else FieldHits(Front(fields), path, depth)
         + Hits(Last(fields).1, path + RenderStep(Key(Last(fields).0)), depth + 1)
  }

  function ItemHits(items: seq<Json>, path: string, depth: nat): seq<Hit>
    requires depth <= MAX_DEPTH
    decreases MAX_DEPTH + 1 - depth, 0, |items|
  {
    if items == [] then []
    else ItemHits(Front(items), path, depth)
         + Hits(Last(items), path + RenderStep(Index(|items| - 1)), depth + 1)
  }

  lemma FieldHitsGrow(candidates: seq<EdgeCandidate>, fields: seq<(string, Json)>, path: string, depth: nat, i: nat)
    requires depth <= MAX_DEPTH && i < |fields|
    ensures PutAll(candidates, FieldHits(fields[..i + 1], path, depth))
         == PutAll(PutAll(candidates, FieldHits(fields[..i], path, depth)),
                   Hits(fields[i].1, path + RenderStep(Key(fields[i].0)), depth + 1))
  {
    assert Front(fields[..i + 1]) == fields[..i];
    PutAllConcat(candidates, FieldHits(fields[..i], path, depth),
                 Hits(fields[i].1, path + RenderStep(Key(fields[i].0)), depth + 1));
  }

  lemma ItemHitsGrow(candidates: seq<EdgeCandidate>, items: seq<Json>, path: string, depth: nat, i: nat)
    requires depth <= MAX_DEPTH && i < |items|
    ensures PutAll(candidates, ItemHits(items[..i + 1], path, depth))
         == PutAll(PutAll(candidates, ItemHits(items[..i], path, depth)),
                   Hits(items[i], path + RenderStep(Index(i)), depth + 1))
  {
    assert Front(items[..i + 1]) == items[..i];
    PutAllConcat(candidates, ItemHits(items[..i], path, depth),
                 Hits(items[i], path + RenderStep(Index(i)), depth + 1));
  }

  class ArmReferenceExtractor {
    var candidates: seq<EdgeCandidate>

    constructor () {
      candidates := [];
    }

    method Visit(value: Json, path: string, depth: nat)
      requires depth <= MAX_DEPTH + 1
      modifies this`candidates
      ensures candidates == PutAll(old(candidates), Hits(value, path, depth))
      decreases MAX_DEPTH + 1 - depth, 1
    {
      if depth > MAX_DEPTH {
        return;
      }
      match value {
        case Object(fields) => VisitFields(fields, path, depth);
        case List(items) => VisitItems(items[..Min(|items|, MAX_ITEMS)], path, depth);
        case String(s) => VisitString(s, path);
        case _ =>
      }
    }

    method VisitFields(fields: seq<(string, Json)>, path: string, depth: nat)
      requires depth <= MAX_DEPTH
      modifies this`candidates
      ensures candidates == PutAll(old(candidates), FieldHits(fields, path, depth))
      decreases MAX_DEPTH + 1 - depth, 0
    {
      for i := 0 to |fields|
        invariant candidates == PutAll(old(candidates), FieldHits(fields[..i], path, depth))
      {
        var (key, child) := fields[i];
        var here := path + RenderStep(Key(key));
        FieldHitsGrow(old(candidates), fields, path, depth, i);
        Visit(child, here, depth + 1);
      }
      assert fields[..|fields|] == fields;
    }

    method VisitItems(items: seq<Json>, path: string, depth: nat)
      requires depth <= MAX_DEPTH
      modifies this`candidates
      ensures candidates == PutAll(old(candidates), ItemHits(items, path, depth))
      decreases MAX_DEPTH + 1 - depth, 0
    {
      for i := 0 to |items|
        invariant candidates == PutAll(old(candidates), ItemHits(items[..i], path, depth))
      {
        var here := path + RenderStep(Index(i));
        ItemHitsGrow(old(candidates), items, path, depth, i);
        Visit(items[i], here, depth + 1);
      }
      assert items[..|items|] == items;
    }

    method VisitString(s: string, path: string)
      modifies this`candidates
      ensures candidates == PutAll(old(candidates), if Qualifies(Normalize(s)) then [(Normalize(s), path)] else [])
    {
      var normalized := Lower(Strip(s));
      if "/subscriptions/" <= normalized && Contains(normalized, "/providers/")
         && !EndsWith(normalized, IGNORED_SUFFIX)
      {
        Assign(normalized, EdgeCandidate(normalized, "references", "hard", 1.0, path));
        assert Front([(normalized, path)]) == [];
      }
    }

    // candidates[target] = candidate
    method Assign(target: string, candidate: EdgeCandidate)
      requires candidate == CandidateFor((target, candidate.evidencePath))
      modifies this`candidates
      ensures candidates == Put(old(candidates), (target, candidate.evidencePath))
    {
      var i := IndexOf(candidates, target);
      if i.Some? {
        candidates := candidates[i.value := candidate];
      } else {
        candidates := candidates + [candidate];
      }
    }

    method Extract(properties: Json) returns (found: seq<EdgeCandidate>)
      modifies this`candidates
      ensures found == Extracted(properties)
    {
      candidates := [];
      Visit(properties, "$", 0);
      found := candidates;
    }
  }

  function Extracted(properties: Json): seq<EdgeCandidate> {
    PutAll([], Hits(properties, "$", 0))
  }

  // ---------- what is found, in terms of paths ----------

  datatype Selector = Key(key: string) | Index(index: nat)

  function RenderStep(sel: Selector): string {
    match sel
    case Key(k) => "." + k
    case Index(i) => "[" + NatText(i) + "]"
  }

  function Render(path: seq<Selector>): string {
    if path == [] then "" else RenderStep(path[0]) + Render(path[1..])
  }

  // A key is written with a dot and an index in brackets, so that two selectors that are written
  // alike are the same.
  lemma RenderStepExactly(a: Selector, b: Selector)
    ensures RenderStep(a) == RenderStep(b) <==> a == b
    ensures a.Key? ==> RenderStep(a) == "." + a.key
    ensures a.Index? ==> RenderStep(a)[0] == '[' && RenderStep(a)[|RenderStep(a)| - 1] == ']'
  {
    if a.Index? && b.Index? && RenderStep(a) == RenderStep(b) {
      var s := RenderStep(a);
      assert s[1..|s| - 1] == NatText(a.index) && s[1..|s| - 1] == NatText(b.index);
      NatTextInjective(a.index, b.index);
    }
    if a.Key? != b.Key? {
      assert RenderStep(a)[0] != RenderStep(b)[0];
    }
    if a.Key? && b.Key? && RenderStep(a) == RenderStep(b) {
      assert a.key == RenderStep(a)[1..] == RenderStep(b)[1..] == b.key;
    }
  }

  // One selector applied to a value.  Object keys are unique in a dictionary, so at most one
  // child qualifies.
  ghost predicate Selects(value: Json, sel: Selector, child: Json) {
    match sel
    case Key(k) => value.Object? && (k, child) in value.fields
    case Index(i) => value.List? && i < |value.items| && value.items[i] == child
  }

  ghost predicate Leads(value: Json, path: seq<Selector>, end: Json) {
    if path == [] then value == end
    else exists child :: Selects(value, path[0], child) && Leads(child, path[1..], end)
  }

  // A path within the extractor's bounds that leads to a string holding an id.
  ghost predicate References(value: Json, path: seq<Selector>, s: string, depth: nat) {
    && |path| + depth <= MAX_DEPTH
    && (forall k | 0 <= k < |path| :: path[k].Index? ==> path[k].index < MAX_ITEMS)
    && Leads(value, path, String(s))
    && Qualifies(Normalize(s))
  }

  lemma {:induction false} FieldHitsHave(fields: seq<(string, Json)>, path: string, depth: nat, i: nat, hit: Hit)
    requires depth <= MAX_DEPTH && i < |fields|
    requires hit in Hits(fields[i].1, path + RenderStep(Key(fields[i].0)), depth + 1)
    ensures hit in FieldHits(fields, path, depth)
  {
    if i < |fields| - 1 {
      FieldHitsHave(Front(fields), path, depth, i, hit);
    }
  }

  lemma {:induction false} ItemHitsHave(items: seq<Json>, path: string, depth: nat, i: nat, hit: Hit)
    requires depth <= MAX_DEPTH && i < |items|
    requires hit in Hits(items[i], path + RenderStep(Index(i)), depth + 1)
    ensures hit in ItemHits(items, path, depth)
  {
    if i < |items| - 1 {
      ItemHitsHave(Front(items), path, depth, i, hit);
    }
  }

  lemma {:induction false} FieldHitsFrom(fields: seq<(string, Json)>, path: string, depth: nat, hit: Hit)
    returns (i: nat)
    requires depth <= MAX_DEPTH && hit in FieldHits(fields, path, depth)
    ensures i < |fields| && hit in Hits(fields[i].1, path + RenderStep(Key(fields[i].0)), depth + 1)
  {
    if hit in FieldHits(Front(fields), path, depth) {
      i := FieldHitsFrom(Front(fields), path, depth, hit);
    } else {
      i := |fields| - 1;
    }
  }

  lemma {:induction false} ItemHitsFrom(items: seq<Json>, path: string, depth: nat, hit: Hit)
    returns (i: nat)
    requires depth <= MAX_DEPTH && hit in ItemHits(items, path, depth)
    ensures i < |items| && hit in Hits(items[i], path + RenderStep(Index(i)), depth + 1)
  {
    if hit in ItemHits(Front(items), path, depth) {
      i := ItemHitsFrom(Front(items), path, depth, hit);
    } else {
      i := |items| - 1;
    }
  }

  lemma ChildHitsAreHits(value: Json, at: string, depth: nat, sel: Selector, child: Json, hit: Hit)
    requires depth < MAX_DEPTH && Selects(value, sel, child) && (sel.Index? ==> sel.index < MAX_ITEMS)
    requires hit in Hits(child, at + RenderStep(sel), depth + 1)
    ensures hit in Hits(value, at, depth)
  {
    match sel
    case Key(k) =>
      var i: nat :| i < |value.fields| && value.fields[i] == (k, child);
      FieldHitsHave(value.fields, at, depth, i, hit);
    case Index(i) =>
      ItemHitsHave(value.items[..Min(|value.items|, MAX_ITEMS)], at, depth, i, hit);
  }

  lemma ReferenceStep(value: Json, path: seq<Selector>, s: string, depth: nat) returns (child: Json)
    requires References(value, path, s, depth) && path != []
    ensures depth < MAX_DEPTH && Selects(value, path[0], child)
    ensures path[0].Index? ==> path[0].index < MAX_ITEMS
    ensures References(child, path[1..], s, depth + 1)
  {
    child :| Selects(value, path[0], child) && Leads(child, path[1..], String(s));
  }

  lemma RenderPath(at: string, path: seq<Selector>)
    requires path != []
    ensures (at + RenderStep(path[0])) + Render(path[1..]) == at + Render(path)
  {
  }

  // Every reference within the bounds is hit, at its own path.
  lemma {:induction false} ReferencesAreHit(value: Json, at: string, depth: nat, path: seq<Selector>, s: string)
    requires depth <= MAX_DEPTH && References(value, path, s, depth)
    ensures (Normalize(s), at + Render(path)) in Hits(value, at, depth)
    decreases |path|
  {
    if path == [] {
      assert at + Render(path) == at;
    } else {
      var child := ReferenceStep(value, path, s, depth);
      ReferencesAreHit(child, at + RenderStep(path[0]), depth + 1, path[1..], s);
      OneLevelUp(value, at, depth, path, child, Normalize(s));
    }
  }

  lemma OneLevelUp(value: Json, at: string, depth: nat, path: seq<Selector>, child: Json, target: string)
    requires path != [] && depth < MAX_DEPTH && Selects(value, path[0], child)
    requires path[0].Index? ==> path[0].index < MAX_ITEMS
    requires
      var below := at + RenderStep(path[0]);
      (target, below + Render(path[1..])) in Hits(child, below, depth + 1)
    ensures (target, at + Render(path)) in Hits(value, at, depth)
  {
    RenderPath(at, path);
    ChildHitsAreHits(value, at, depth, path[0], child, (target, at + Render(path)));
  }

  // Every hit is a reference within the bounds, and its recorded path is that reference's path.
  lemma {:induction false} HitsAreReferences(value: Json, at: string, depth: nat, hit: Hit)
    returns (path: seq<Selector>, s: string)
    requires depth <= MAX_DEPTH && hit in Hits(value, at, depth)
    ensures References(value, path, s, depth) && hit == (Normalize(s), at + Render(path))
    decreases MAX_DEPTH - depth
  {
    match value {
      case Object(fields) =>
        var i := FieldHitsFrom(fields, at, depth, hit);
        var sel := Key(fields[i].0);
        path, s := BelowSelector(value, at, depth, hit, sel, fields[i].1);
      case List(items) =>
        var seen := items[..Min(|items|, MAX_ITEMS)];
        var i := ItemHitsFrom(seen, at, depth, hit);
        path, s := BelowSelector(value, at, depth, hit, Index(i), items[i]);
      case String(text) =>
        path, s := [], text;
        assert at + Render(path) == at;
    }
  }

  lemma {:induction false} BelowSelector(value: Json, at: string, depth: nat, hit: Hit, sel: Selector, child: Json)
    returns (path: seq<Selector>, s: string)
    requires depth <= MAX_DEPTH && Selects(value, sel, child) && (sel.Index? ==> sel.index < MAX_ITEMS)
    requires hit in Hits(child, at + RenderStep(sel), depth + 1)
    ensures References(value, path, s, depth) && hit == (Normalize(s), at + Render(path))
    decreases MAX_DEPTH - depth, 0
  {
    var rest;
    rest, s := HitsAreReferences(child, at + RenderStep(sel), depth + 1, hit);
    path := [sel] + rest;
    assert path[1..] == rest;
    RenderPath(at, path);
    assert Leads(value, path, String(s));
  }

  // ---------- the dictionary at the end ----------

  ghost predicate OnePerTarget(candidates: seq<EdgeCandidate>) {
    forall i, j | 0 <= i < j < |candidates| :: candidates[i].target != candidates[j].target
  }

  // `c` is what the last hit on its target left behind.
  ghost predicate FromLastHit(c: EdgeCandidate, hits: seq<Hit>) {
    exists k :: 0 <= k < |hits| && c == CandidateFor(hits[k])
      && forall later :: k < later < |hits| ==> hits[later].0 != c.target
  }

  lemma PutReplaces(candidates: seq<EdgeCandidate>, hit: Hit)
    requires OnePerTarget(candidates)
    ensures OnePerTarget(Put(candidates, hit))
    ensures CandidateFor(hit) in Put(candidates, hit)
    ensures forall c :: c in Put(candidates, hit) ==> c == CandidateFor(hit) || (c in candidates && c.target != hit.0)
    ensures forall c :: c in candidates && c.target != hit.0 ==> c in Put(candidates, hit)
  {
    var after := Put(candidates, hit);
    match IndexOf(candidates, hit.0)
    case Some(i) =>
      assert after[i] == CandidateFor(hit);
      forall c | c in candidates && c.target != hit.0 ensures c in after {
        var k :| 0 <= k < |candidates| && candidates[k] == c;
        assert after[k] == c;
      }
    case None =>
      assert after[|candidates|] == CandidateFor(hit);
  }

  lemma StillLast(c: EdgeCandidate, hits: seq<Hit>)
    requires hits != [] && FromLastHit(c, Front(hits)) && c.target != Last(hits).0
    ensures FromLastHit(c, hits)
  {
    var front := Front(hits);
    var k :| 0 <= k < |front| && c == CandidateFor(front[k])
      && forall later :: k < later < |front| ==> front[later].0 != c.target;
    assert c == CandidateFor(hits[k]);
    forall later | k < later < |hits| ensures hits[later].0 != c.target {
      if later < |front| {
        assert hits[later] == front[later];
      }
    }
  }

  // The dictionary holds one candidate for each target hit, left behind by the target's last hit.
  ghost predicate IsDictionary(candidates: seq<EdgeCandidate>, hits: seq<Hit>) {
    && OnePerTarget(candidates)
    && (forall c :: c in candidates ==> FromLastHit(c, hits))
    && (forall hit :: hit in hits ==> HasTarget(candidates, hit.0))
  }

  ghost predicate HasTarget(candidates: seq<EdgeCandidate>, target: string) {
    exists c :: c in candidates && c.target == target
  }

  lemma DictionaryOneMore(before: seq<EdgeCandidate>, hits: seq<Hit>)
    requires hits != [] && IsDictionary(before, Front(hits))
    ensures IsDictionary(Put(before, Last(hits)), hits)
  {
    var last := Last(hits);
    var after := Put(before, last);
    PutReplaces(before, last);
    forall c | c in after ensures FromLastHit(c, hits) {
      if c == CandidateFor(last) {
        assert hits[|hits| - 1] == last;
      } else {
        StillLast(c, hits);
      }
    }
    forall hit | hit in hits ensures HasTarget(after, hit.0) {
      if hit.0 == last.0 {
        assert CandidateFor(last) in after;
      } else {
        assert hit in Front(hits) && HasTarget(before, hit.0);
        var c :| c in before && c.target == hit.0;
        assert c in after;
      }
    }
  }

  lemma {:induction false} DictionaryOfHits(hits: seq<Hit>)
    ensures IsDictionary(PutAll([], hits), hits)
    ensures OnePerTarget(PutAll([], hits))
    ensures forall c :: c in PutAll([], hits) ==> FromLastHit(c, hits)
    ensures forall hit :: hit in hits ==> HasTarget(PutAll([], hits), hit.0)
  {
    if hits != [] {
      DictionaryOfHits(Front(hits));
      DictionaryOneMore(PutAll([], Front(hits)), hits);
    }
  }

  // The extractor's result: one candidate per target; a target is present exactly when some path
  // within the bounds leads to a string that normalises to it; and the recorded evidence is the
  // rendering of such a path.
  lemma ExtractedExactly(properties: Json, target: string)
    ensures OnePerTarget(Extracted(properties))
    ensures (exists c :: c in Extracted(properties) && c.target == target)
       <==> (exists path, s :: References(properties, path, s, 0) && Normalize(s) == target)
  {
    var hits := Hits(properties, "$", 0);
    DictionaryOfHits(hits);
    if c :| c in Extracted(properties) && c.target == target {
      assert FromLastHit(c, hits);
      var k :| 0 <= k < |hits| && c == CandidateFor(hits[k]);
      var path, s := HitsAreReferences(properties, "$", 0, hits[k]);
      assert References(properties, path, s, 0) && Normalize(s) == target;
    }
    if path, s :| References(properties, path, s, 0) && Normalize(s) == target {
      ReferencesAreHit(properties, "$", 0, path, s);
      assert (target, "$" + Render(path)) in hits;
    }
  }

  lemma CandidatesAreHardReferences(properties: Json)
    ensures forall c | c in Extracted(properties) ::
              c.relationshipType == "references" && c.dependencyStrength == "hard" && c.confidence == 1.0
  {
    DictionaryOfHits(Hits(properties, "$", 0));
  }

  lemma EvidenceLeadsToTarget(properties: Json, c: EdgeCandidate) returns (path: seq<Selector>, s: string)
    requires c in Extracted(properties)
    ensures References(properties, path, s, 0)
    ensures Normalize(s) == c.target && c.evidencePath == "$" + Render(path)
  {
    var hits := Hits(properties, "$", 0);
    DictionaryOfHits(hits);
    assert FromLastHit(c, hits);
    var k :| 0 <= k < |hits| && c == CandidateFor(hits[k]);
    path, s := HitsAreReferences(properties, "$", 0, hits[k]);
  }
}
