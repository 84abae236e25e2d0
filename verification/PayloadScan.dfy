/**
  * backend/scripts/assert_analytics_pii_free.py: a search of whole JSON payloads for forbidden keys at
  * any depth.
  */
module PayloadScan {
  import Decimal
  import opened Lists
  import opened Options
  import opened Whitespace

  /** A parsed JSON value, as far as the search looks at it. */
  datatype Json = Scalar | Object(fields: seq<Field>) | List(items: seq<Json>)

  datatype Field = Field(key: string, value: Json)

  function Count(node: Json): nat {
    match node
    case Scalar => 0
    case Object(fields) => |fields|
    case List(items) => |items|
  }

  function Child(node: Json, i: nat): (child: Json)
    requires i < Count(node)
    ensures child < node
  {
    if node.Object? then node.fields[i].value else node.items[i]
  }

  // What there is to find

  /** Child numbers that lead from the node to a forbidden key: the last step takes that key. */
  predicate IsPlace(node: Json, place: seq<nat>, forbidden: set<string>) {
    place != [] && place[0] < Count(node) &&
    if |place| == 1 then node.Object? && node.fields[place[0]].key in forbidden
    else IsPlace(Child(node, place[0]), place[1..], forbidden)
  }

  function Under(i: nat, places: seq<seq<nat>>): seq<seq<nat>> { Map(places, p => [i] + p) }

  function Own(node: Json, i: nat, forbidden: set<string>): seq<seq<nat>>
    requires i < Count(node)
  {
    if node.Object? && node.fields[i].key in forbidden then [[i]] else []
  }

  /** The places within the first n children, in the order of the walk. */
  function PlacesUpTo(node: Json, n: nat, forbidden: set<string>): seq<seq<nat>>
    requires n <= Count(node)
    decreases node, n
  {
    if n == 0 then []
    else
      var child := Child(node, n - 1);
      PlacesUpTo(node, n - 1, forbidden) +
      (Own(node, n - 1, forbidden) + Under(n - 1, PlacesUpTo(child, Count(child), forbidden)))
  }

  function Places(node: Json, forbidden: set<string>): seq<seq<nat>> { PlacesUpTo(node, Count(node), forbidden) }

  lemma UnderHas(i: nat, places: seq<seq<nat>>, p: seq<nat>)
    ensures p in Under(i, places) <==> p != [] && p[0] == i && p[1..] in places
  {
    if p in Under(i, places) {
      var k :| 0 <= k < |places| && Under(i, places)[k] == p;
      assert p[1..] == places[k];
    }
    if p != [] && p[0] == i && p[1..] in places {
      var k :| 0 <= k < |places| && places[k] == p[1..];
      assert Under(i, places)[k] == p;
    }
  }

  lemma OwnHas(node: Json, i: nat, forbidden: set<string>, p: seq<nat>)
    requires i < Count(node)
    ensures p in Own(node, i, forbidden) <==> p == [i] && node.Object? && node.fields[i].key in forbidden
  {
  }

  /** What one more child adds. */
  lemma PlacesNext(node: Json, i: nat, forbidden: set<string>, p: seq<nat>)
    requires i < Count(node)
    ensures p in PlacesUpTo(node, i + 1, forbidden) <==>
            p in PlacesUpTo(node, i, forbidden) || p in Own(node, i, forbidden) ||
            p in Under(i, Places(Child(node, i), forbidden))
  {
  }

  lemma ExactBelow(node: Json, i: nat, forbidden: set<string>, p: seq<nat>)
    requires i < Count(node)
    requires p != [] ==> (p[1..] in Places(Child(node, i), forbidden) <==> IsPlace(Child(node, i), p[1..], forbidden))
    ensures p in Own(node, i, forbidden) || p in Under(i, Places(Child(node, i), forbidden)) <==>
            IsPlace(node, p, forbidden) && p[0] == i
  {
    OwnHas(node, i, forbidden, p);
    UnderHas(i, Places(Child(node, i), forbidden), p);
    assert |p| == 1 ==> p == [p[0]];
  }

  lemma ExactNext(node: Json, i: nat, forbidden: set<string>, p: seq<nat>)
    requires i < Count(node)
    requires p in PlacesUpTo(node, i, forbidden) <==> IsPlace(node, p, forbidden) && p[0] < i
    requires p != [] ==> (p[1..] in Places(Child(node, i), forbidden) <==> IsPlace(Child(node, i), p[1..], forbidden))
    ensures p in PlacesUpTo(node, i + 1, forbidden) <==> IsPlace(node, p, forbidden) && p[0] < i + 1
  {
    ExactBelow(node, i, forbidden, p);
    PlacesNext(node, i, forbidden, p);
  }

  /** The walk is sound and complete: it lists exactly the places of forbidden keys. */
  lemma {:induction false} PlacesExact(node: Json, n: nat, forbidden: set<string>, p: seq<nat>)
    requires n <= Count(node)
    ensures p in PlacesUpTo(node, n, forbidden) <==> IsPlace(node, p, forbidden) && p[0] < n
    decreases node
  {
    for i := 0 to n
      invariant p in PlacesUpTo(node, i, forbidden) <==> IsPlace(node, p, forbidden) && p[0] < i
    {
      if p != [] {
        PlacesExact(Child(node, i), Count(Child(node, i)), forbidden, p[1..]);
      }
      ExactNext(node, i, forbidden, p);
    }
  }

  // The order of the walk

  /** A key comes before what is under it, and a child before the next. */
  predicate Before(p: seq<nat>, q: seq<nat>) {
    q != [] && (p == [] || p[0] < q[0] || (p[0] == q[0] && Before(p[1..], q[1..])))
  }

  ghost predicate Ascending(places: seq<seq<nat>>) {
    forall i, j :: 0 <= i < j < |places| ==> Before(places[i], places[j])
  }

  lemma {:induction false} BeforeIsStrict(p: seq<nat>, q: seq<nat>)
    requires Before(p, q)
    ensures p != q
  {
    if p != [] && p[0] == q[0] {
      BeforeIsStrict(p[1..], q[1..]);
    }
  }

  lemma AscendingJoined(a: seq<seq<nat>>, b: seq<seq<nat>>)
    requires Ascending(a) && Ascending(b)
    requires forall p, q :: p in a && q in b ==> Before(p, q)
    ensures Ascending(a + b)
  {
  }

  lemma AscendingUnder(i: nat, places: seq<seq<nat>>)
    requires Ascending(places)
    ensures Ascending(Under(i, places))
  {
  }

  lemma OwnBeforeUnder(node: Json, i: nat, forbidden: set<string>)
    requires i < Count(node) && Ascending(Places(Child(node, i), forbidden))
    ensures Ascending(Own(node, i, forbidden) + Under(i, Places(Child(node, i), forbidden)))
  {
    var own, below := Own(node, i, forbidden), Places(Child(node, i), forbidden);
    AscendingUnder(i, below);
    PlacesExact(Child(node, i), Count(Child(node, i)), forbidden, []);
    forall p, q | p in own && q in Under(i, below) ensures Before(p, q) {
      OwnHas(node, i, forbidden, p);
      UnderHas(i, below, q);
      assert p[1..] == [];
    }
    AscendingJoined(own, Under(i, below));
  }

  /** The walk is in preorder, so no place is listed twice. */
  lemma {:induction false} PlacesAscend(node: Json, n: nat, forbidden: set<string>)
    requires n <= Count(node)
    ensures Ascending(PlacesUpTo(node, n, forbidden))
    decreases node
  {
    for i := 0 to n
      invariant Ascending(PlacesUpTo(node, i, forbidden))
    {
      PlacesAscend(Child(node, i), Count(Child(node, i)), forbidden);
      AscendsNext(node, i, forbidden);
    }
  }

  lemma AscendsNext(node: Json, i: nat, forbidden: set<string>)
    requires i < Count(node)
    requires Ascending(PlacesUpTo(node, i, forbidden)) && Ascending(Places(Child(node, i), forbidden))
    ensures Ascending(PlacesUpTo(node, i + 1, forbidden))
  {
    var below := Places(Child(node, i), forbidden);
    var here := Own(node, i, forbidden) + Under(i, below);
    OwnBeforeUnder(node, i, forbidden);
    forall p, q | p in PlacesUpTo(node, i, forbidden) && q in here ensures Before(p, q) {
      PlacesExact(node, i, forbidden, p);
      OwnHas(node, i, forbidden, q);
      UnderHas(i, below, q);
    }
    AscendingJoined(PlacesUpTo(node, i, forbidden), here);
  }

  lemma PlacesDistinct(node: Json, forbidden: set<string>, i: nat, j: nat)
    requires i < j < |Places(node, forbidden)|
    ensures Places(node, forbidden)[i] != Places(node, forbidden)[j]
  {
    PlacesAscend(node, Count(node), forbidden);
    BeforeIsStrict(Places(node, forbidden)[i], Places(node, forbidden)[j]);
  }

  // Keys and indices on the way

  datatype Step = Key(key: string) | Index(index: nat)

  function StepTo(node: Json, i: nat): Step
    requires i < Count(node)
  {
    if node.Object? then Key(node.fields[i].key) else Index(i)
  }

  function Steps(node: Json, place: seq<nat>): seq<Step> {
    if place == [] || place[0] >= Count(node) then []
    else [StepTo(node, place[0])] + Steps(Child(node, place[0]), place[1..])
  }

  /** No object has the same key twice: what parsing gives. */
  ghost predicate DistinctKeys(node: Json) {
    (node.Object? ==> forall i, j :: 0 <= i < j < |node.fields| ==> node.fields[i].key != node.fields[j].key) &&
    forall i :: 0 <= i < Count(node) ==> DistinctKeys(Child(node, i))
  }

  /** Keys and indices tell any two places apart. */
  lemma {:induction false} StepsTellPlacesApart(node: Json, p: seq<nat>, q: seq<nat>, forbidden: set<string>)
    requires DistinctKeys(node) && IsPlace(node, p, forbidden) && IsPlace(node, q, forbidden)
    ensures Steps(node, p) == Steps(node, q) ==> p == q
    decreases |p|
  {
    var s, t := Steps(node, p), Steps(node, q);
    if s == t {
      assert s[0] == t[0] && p[0] == q[0];
      var child := Child(node, p[0]);
      assert s[1..] == Steps(child, p[1..]) && t[1..] == Steps(child, q[1..]);
      if |p| > 1 && |q| > 1 {
        StepsTellPlacesApart(child, p[1..], q[1..], forbidden);
      }
      assert p == [p[0]] + p[1..] && q == [q[0]] + q[1..];
    }
  }

  // The walk as it is written

  function StepText(step: Step): string {
    match step
    case Key(key) => "." + key
    case Index(i) => "[" + Decimal.Print(i) + "]"
  }

  function Segment(node: Json, i: nat): string
    requires i < Count(node)
  {
    StepText(StepTo(node, i))
  }

  function Rendered(path: string, node: Json, place: seq<nat>): string
    decreases |place|
  {
    if place == [] || place[0] >= Count(node) then path
    else Rendered(path + Segment(node, place[0]), Child(node, place[0]), place[1..])
  }

  function RenderAll(path: string, node: Json, places: seq<seq<nat>>): seq<string> {
    Map(places, p => Rendered(path, node, p))
  }

  lemma RenderUnder(path: string, node: Json, i: nat, places: seq<seq<nat>>)
    requires i < Count(node)
    ensures RenderAll(path, node, Under(i, places)) == RenderAll(path + Segment(node, i), Child(node, i), places)
  {
  }

  lemma RenderConcat(path: string, node: Json, a: seq<seq<nat>>, b: seq<seq<nat>>)
    ensures RenderAll(path, node, a + b) == RenderAll(path, node, a) + RenderAll(path, node, b)
  {
  }

  lemma RenderOwn(path: string, node: Json, i: nat)
    requires i < Count(node)
    ensures RenderAll(path, node, [[i]]) == [path + Segment(node, i)]
  {
    var rest: seq<nat> := [i][1..];
    assert rest == [];
    assert Rendered(path, node, [i]) == Rendered(path + Segment(node, i), Child(node, i), rest);
  }

  /** The paths the walk prints for the first n children, child by child. */
  function Printed(path: string, node: Json, n: nat, forbidden: set<string>): seq<string>
    requires n <= Count(node)
    decreases node, n
  {
    if n == 0 then []
    else
      var child, deeper := Child(node, n - 1), path + Segment(node, n - 1);
      Printed(path, node, n - 1, forbidden) +
      ((if Own(node, n - 1, forbidden) == [] then [] else [deeper]) + Printed(deeper, child, Count(child), forbidden))
  }

  lemma PrintedNext(path: string, node: Json, i: nat, forbidden: set<string>)
    requires i < Count(node)
    ensures var child, deeper := Child(node, i), path + Segment(node, i);
      Printed(path, node, i + 1, forbidden) ==
      Printed(path, node, i, forbidden) +
      ((if Own(node, i, forbidden) == [] then [] else [deeper]) + Printed(deeper, child, Count(child), forbidden))
  {
  }

  /** One more child walked. */
  lemma RenderNext(path: string, node: Json, i: nat, forbidden: set<string>)
    requires i < Count(node)
    ensures RenderAll(path, node, PlacesUpTo(node, i + 1, forbidden)) ==
            RenderAll(path, node, PlacesUpTo(node, i, forbidden)) +
            ((if Own(node, i, forbidden) == [] then [] else [path + Segment(node, i)]) +
             RenderAll(path + Segment(node, i), Child(node, i), Places(Child(node, i), forbidden)))
  {
    var own, under := Own(node, i, forbidden), Under(i, Places(Child(node, i), forbidden));
    RenderConcat(path, node, PlacesUpTo(node, i, forbidden), own + under);
    RenderConcat(path, node, own, under);
    RenderUnder(path, node, i, Places(Child(node, i), forbidden));
    RenderOwn(path, node, i);
    assert own != [] ==> own == [[i]];
  }

  lemma RenderedNext(path: string, node: Json, i: nat, forbidden: set<string>)
    requires i < Count(node)
    requires Printed(path, node, i, forbidden) == RenderAll(path, node, PlacesUpTo(node, i, forbidden))
    requires var child, deeper := Child(node, i), path + Segment(node, i);
      Printed(deeper, child, Count(child), forbidden) == RenderAll(deeper, child, Places(child, forbidden))
    ensures Printed(path, node, i + 1, forbidden) == RenderAll(path, node, PlacesUpTo(node, i + 1, forbidden))
  {
    RenderNext(path, node, i, forbidden);
    PrintedNext(path, node, i, forbidden);
  }

  lemma {:induction false} PrintedIsRendered(path: string, node: Json, forbidden: set<string>)
    ensures Printed(path, node, Count(node), forbidden) == RenderAll(path, node, Places(node, forbidden))
    decreases node
  {
    assert RenderAll(path, node, []) == [];
    for i := 0 to Count(node)
      invariant Printed(path, node, i, forbidden) == RenderAll(path, node, PlacesUpTo(node, i, forbidden))
    {
      PrintedIsRendered(path + Segment(node, i), Child(node, i), forbidden);
      RenderedNext(path, node, i, forbidden);
    }
  }

  lemma ConcatRight<T>(a: seq<T>, b: seq<T>, c: seq<T>, d: seq<T>)
    ensures a + b + c + d == a + (b + (c + d))
  {
  }

  /** The hits so far, the child's own hit and what its walk appended are the hits one child later. */
  lemma Appended(path: string, node: Json, i: nat, forbidden: set<string>, before: seq<string>, own: seq<string>)
    requires i < Count(node) && own == if Own(node, i, forbidden) == [] then [] else [path + Segment(node, i)]
    ensures before + Printed(path, node, i, forbidden) + own +
            RenderAll(path + Segment(node, i), Child(node, i), Places(Child(node, i), forbidden)) ==
            before + Printed(path, node, i + 1, forbidden)
  {
    var child, deeper := Child(node, i), path + Segment(node, i);
    PrintedIsRendered(deeper, child, forbidden);
    ConcatRight(before, Printed(path, node, i, forbidden), own, Printed(deeper, child, Count(child), forbidden));
  }

  class Walker {
    const forbidden: set<string>
    var hits: seq<string>

    constructor (forbidden: set<string>)
      ensures this.forbidden == forbidden && hits == []
    {
      this.forbidden := forbidden;
      hits := [];
    }

    method Walk(node: Json, path: string)
      modifies this
      ensures hits == old(hits) + RenderAll(path, node, Places(node, forbidden))
      decreases node, 1
    {
      PrintedIsRendered(path, node, forbidden);
      match node
      case Scalar =>
      case Object(_) => WalkFields(node, path);
      case List(_) => WalkItems(node, path);
    }

    /** The loop over a dictionary's items. */
    method WalkFields(node: Json, path: string)
      requires node.Object?
      modifies this
      ensures hits == old(hits) + Printed(path, node, Count(node), forbidden)
      decreases node, 0
    {
      for i := 0 to |node.fields|
        invariant hits == old(hits) + Printed(path, node, i, forbidden)
      {
        ghost var own := if Own(node, i, forbidden) == [] then [] else [path + Segment(node, i)];
        var key, value := node.fields[i].key, node.fields[i].value;
        if key in forbidden {
          hits := hits + [path + ("." + key)];
        }
        assert hits == old(hits) + Printed(path, node, i, forbidden) + own;
        Walk(value, path + ("." + key));
        Appended(path, node, i, forbidden, old(hits), own);
      }
    }

    /** The loop over a list with its indices. */
    method WalkItems(node: Json, path: string)
      requires node.List?
      modifies this
      ensures hits == old(hits) + Printed(path, node, Count(node), forbidden)
      decreases node, 0
    {
      for i := 0 to |node.items|
        invariant hits == old(hits) + Printed(path, node, i, forbidden)
      {
        assert hits == old(hits) + Printed(path, node, i, forbidden) + [];
        Walk(node.items[i], path + ("[" + Decimal.Print(i) + "]"));
        Appended(path, node, i, forbidden, old(hits), []);
      }
    }
  }

  method PayloadContains(payload: Json, forbidden: set<string>) returns (hits: seq<string>)
    ensures hits == RenderAll("$", payload, Places(payload, forbidden))
  {
    var walker := new Walker(forbidden);
    walker.Walk(payload, "$");
    hits := walker.hits;
  }

  // The scan

  datatype EventRow = EventRow(id: string, payload: Json)

  datatype RowHits = RowHits(id: string, paths: seq<string>)

  /** A forbidden key occurs somewhere in the payload. */
  ghost predicate Leaks(payload: Json, forbidden: set<string>) { exists p :: IsPlace(payload, p, forbidden) }

  lemma LeaksIff(payload: Json, forbidden: set<string>)
    ensures Leaks(payload, forbidden) <==> Places(payload, forbidden) != []
  {
    if p :| IsPlace(payload, p, forbidden) {
      PlacesExact(payload, Count(payload), forbidden, p);
    }
    if Places(payload, forbidden) != [] {
      PlacesExact(payload, Count(payload), forbidden, Places(payload, forbidden)[0]);
    }
  }

  /** The trimmed, non-empty pieces between commas. */
  function ForbiddenKeys(arg: string): set<string> {
    var pieces := SplitOn(arg, ',');
    set i | 0 <= i < |pieces| && Trim(pieces[i], IsPySpace) != "" :: Trim(pieces[i], IsPySpace)
  }

  /** A key is forbidden exactly if it stands between commas, with any blanks around it. */
  lemma ForbiddenKeysIff(arg: string, key: string)
    ensures key in ForbiddenKeys(arg) <==>
            key != "" &&
            exists x: string, piece: string, y: string ::
              Between(arg, ',', x, piece, y) && Trim(piece, IsPySpace) == key
  {
    if key in ForbiddenKeys(arg) {
      var i :| 0 <= i < |SplitOn(arg, ',')| && Trim(SplitOn(arg, ',')[i], IsPySpace) == key;
      var x, y := PieceBetween(arg, ',', SplitOn(arg, ',')[i]);
    } else if key != "" {
      if x: string, piece: string, y: string :| Between(arg, ',', x, piece, y) && Trim(piece, IsPySpace) == key {
        BetweenIsPiece(arg, ',', x, piece, y);
      }
    }
  }

  /** A row with a place in it is a hit, with the printed paths of all its places. */
  function RowHit(forbidden: set<string>): EventRow -> Option<RowHits> {
    (row: EventRow) =>
      var places := Places(row.payload, forbidden);
      if places == [] then None else Some(RowHits(row.id, RenderAll("$", row.payload, places)))
  }

  lemma RowHitIs(row: EventRow, forbidden: set<string>)
    ensures var paths := RenderAll("$", row.payload, Places(row.payload, forbidden));
      RowHit(forbidden)(row) == if paths == [] then None else Some(RowHits(row.id, paths))
    ensures RowHit(forbidden)(row).Some? <==> Leaks(row.payload, forbidden)
  {
    LeaksIff(row.payload, forbidden);
  }

  lemma HitsNext(rows: seq<EventRow>, n: nat, forbidden: set<string>)
    requires n < |rows|
    ensures var paths := RenderAll("$", rows[n].payload, Places(rows[n].payload, forbidden));
      FilterMap(rows[..n + 1], RowHit(forbidden)) ==
      FilterMap(rows[..n], RowHit(forbidden)) + if paths == [] then [] else [RowHits(rows[n].id, paths)]
  {
    RowHitIs(rows[n], forbidden);
    FilterMapNext(rows, n, RowHit(forbidden));
  }

  /** The hits are those of the rows that leak, one each, in the order of the rows. */
  method Scan(rows: seq<EventRow>, forbidden: set<string>) returns (hits: seq<RowHits>)
    ensures hits == FilterMap(rows, RowHit(forbidden))
    ensures forall i :: 0 <= i < |rows| ==> (RowHit(forbidden)(rows[i]).Some? <==> Leaks(rows[i].payload, forbidden))
  {
    hits := [];
    for n := 0 to |rows|
      invariant hits == FilterMap(rows[..n], RowHit(forbidden))
    {
      var paths := PayloadContains(rows[n].payload, forbidden);
      HitsNext(rows, n, forbidden);
      if paths != [] {
        hits := hits + [RowHits(rows[n].id, paths)];
      }
    }
    assert rows[..|rows|] == rows;
    forall i | 0 <= i < |rows| ensures RowHit(forbidden)(rows[i]).Some? <==> Leaks(rows[i].payload, forbidden) {
      RowHitIs(rows[i], forbidden);
    }
  }

  /** The script passes exactly when no fetched row holds a forbidden key at any depth. */
  method ScanExit(rows: seq<EventRow>, forbiddenKeys: string) returns (exit: int)
    ensures exit == 0 || exit == 1
    ensures exit == 0 <==> forall i :: 0 <= i < |rows| ==> !Leaks(rows[i].payload, ForbiddenKeys(forbiddenKeys))
  {
    var forbidden := ForbiddenKeys(forbiddenKeys);
    var hits := Scan(rows, forbidden);
    FilterMapEmptyIff(rows, RowHit(forbidden));
    exit := if hits == [] then 0 else 1;
  }

  // When printed paths tell places apart

  function StepsText(steps: seq<Step>): string {
    if steps == [] then "" else StepsText(steps[..|steps| - 1]) + StepText(steps[|steps| - 1])
  }

  lemma {:induction false} StepsTextFirst(step: Step, rest: seq<Step>)
    ensures StepsText([step] + rest) == StepText(step) + StepsText(rest)
  {
    if rest == [] {
      assert [step] + rest == [step];
      assert StepsText([step]) == StepsText([]) + StepText(step);
    } else {
      var n := |rest| - 1;
      StepsTextFirst(step, rest[..n]);
      StepsTextLast([step] + rest[..n], rest[n]);
      AppendLast([step], rest);
      ConcatAssoc(StepText(step), StepsText(rest[..n]), StepText(rest[n]));
    }
  }

  lemma StepsTextLast(steps: seq<Step>, step: Step)
    ensures StepsText(steps + [step]) == StepsText(steps) + StepText(step)
  {
    assert (steps + [step])[..|steps|] == steps;
  }

  lemma {:induction false} RenderedIsStepsText(path: string, node: Json, place: seq<nat>)
    ensures Rendered(path, node, place) == path + StepsText(Steps(node, place))
    decreases |place|
  {
    if place != [] && place[0] < Count(node) {
      var child := Child(node, place[0]);
      RenderedIsStepsText(path + Segment(node, place[0]), child, place[1..]);
      StepsTextFirst(StepTo(node, place[0]), Steps(child, place[1..]));
    }
  }

  predicate EndsWith(s: string, t: string) { |t| <= |s| && s[|s| - |t|..] == t }

  /** No dot in the key, and nothing at its end that reads as an index. */
  ghost predicate SafeKey(key: string) { '.' !in key && forall i: nat :: !EndsWith(key, StepText(Index(i))) }

  ghost predicate SafeStep(step: Step) { step.Key? ==> SafeKey(step.key) }

  lemma MarkAt(x: string, a: string, c: char)
    requires c !in a
    ensures var s := x + ([c] + a); s[|x|] == c && forall k :: |x| < k < |s| ==> s[k] != c
  {
    var s := x + ([c] + a);
    assert forall k :: |x| < k < |s| ==> s[k] == a[k - |x| - 1];
  }

  /** A key without dots and brackets is safe. */
  lemma PlainKeyIsSafe(key: string)
    requires '.' !in key && '[' !in key
    ensures SafeKey(key)
  {
    forall i: nat ensures !EndsWith(key, StepText(Index(i))) {
      var t := StepText(Index(i));
      assert t[0] == '[';
      assert |t| <= |key| ==> key[|key| - |t|..][0] == key[|key| - |t|];
    }
  }

  /** What follows the last occurrence of a mark is determined by the text. */
  lemma LastMark(x: string, a: string, y: string, b: string, c: char)
    requires x + ([c] + a) == y + ([c] + b) && c !in a && c !in b
    ensures x == y && a == b
  {
    var s := x + ([c] + a);
    MarkAt(x, a, c);
    MarkAt(y, b, c);
    assert |x| == |y|;
    assert s[..|x|] == x && s[..|y|] == y && s[|x| + 1..] == a && s[|y| + 1..] == b;
  }

  lemma NoMarkInIndex(i: nat)
    ensures '[' !in Decimal.Print(i) + "]" && '.' !in StepText(Index(i))
  {
  }

  lemma SameIndex(x: string, i: nat, y: string, j: nat)
    requires x + StepText(Index(i)) == y + StepText(Index(j))
    ensures x == y && i == j
  {
    var a, b := Decimal.Print(i) + "]", Decimal.Print(j) + "]";
    NoMarkInIndex(i);
    NoMarkInIndex(j);
    assert StepText(Index(i)) == ['['] + a && StepText(Index(j)) == ['['] + b;
    LastMark(x, a, y, b, '[');
    assert a[..|a| - 1] == Decimal.Print(i) && b[..|b| - 1] == Decimal.Print(j);
    Decimal.PrintInjective(i, j);
  }

  /** A key that ends a text like an index does is not safe. */
  lemma KeyLikeIndex(x: string, key: string, y: string, i: nat)
    requires x + StepText(Key(key)) == y + StepText(Index(i))
    ensures !SafeKey(key)
  {
    var t := StepText(Index(i));
    var s := y + t;
    NoMarkInIndex(i);
    assert s[|x|] == '.' by {
      assert (x + StepText(Key(key)))[|x|] == '.';
    }
    assert forall k :: |y| <= k < |s| ==> s[k] == t[k - |y|];
    assert |x| < |y|;
    assert key == s[|x| + 1..] && s[|s| - |t|..] == t;
    assert key[|key| - |t|..] == s[|s| - |t|..];
    assert EndsWith(key, t);
  }

  lemma SameLast(x: string, a: Step, y: string, b: Step)
    requires SafeStep(a) && SafeStep(b) && x + StepText(a) == y + StepText(b)
    ensures x == y && a == b
  {
    if a.Key? && b.Key? {
      LastMark(x, a.key, y, b.key, '.');
    } else if a.Index? && b.Index? {
      SameIndex(x, a.index, y, b.index);
    } else if a.Key? {
      KeyLikeIndex(x, a.key, y, b.index);
    } else {
      KeyLikeIndex(y, b.key, x, a.index);
    }
  }

  lemma EmptyTextIff(steps: seq<Step>)
    ensures StepsText(steps) == "" <==> steps == []
  {
  }

  lemma {:induction false} StepsTextInjective(s: seq<Step>, t: seq<Step>)
    requires (forall i :: 0 <= i < |s| ==> SafeStep(s[i])) && (forall i :: 0 <= i < |t| ==> SafeStep(t[i]))
    requires StepsText(s) == StepsText(t)
    ensures s == t
  {
    EmptyTextIff(s);
    EmptyTextIff(t);
    if s != [] {
      var m, n := |s| - 1, |t| - 1;
      SameLast(StepsText(s[..m]), s[m], StepsText(t[..n]), t[n]);
      StepsTextInjective(s[..m], t[..n]);
      SnocEqual(s, t);
    }
  }

  lemma SnocEqual<T>(s: seq<T>, t: seq<T>)
    requires s != [] && t != [] && s[..|s| - 1] == t[..|t| - 1] && s[|s| - 1] == t[|t| - 1]
    ensures s == t
  {
    assert s == s[..|s| - 1] + [s[|s| - 1]] && t == t[..|t| - 1] + [t[|t| - 1]];
  }

  /** Every key of the payload, at any depth, satisfies what holds of it. */
  ghost predicate KeysIn(node: Json, keys: iset<string>) {
    (node.Object? ==> forall i :: 0 <= i < |node.fields| ==> node.fields[i].key in keys) &&
    forall i :: 0 <= i < Count(node) ==> KeysIn(Child(node, i), keys)
  }

  lemma {:induction false} StepsAreSafe(node: Json, place: seq<nat>, keys: iset<string>)
    requires KeysIn(node, keys) && forall k :: k in keys ==> SafeKey(k)
    ensures forall i :: 0 <= i < |Steps(node, place)| ==> SafeStep(Steps(node, place)[i])
    decreases |place|
  {
    if place != [] && place[0] < Count(node) {
      StepsAreSafe(Child(node, place[0]), place[1..], keys);
    }
  }

  /** With safe keys only, the printed paths tell any two places apart. */
  lemma PrintedPathsDiffer(node: Json, p: seq<nat>, q: seq<nat>, forbidden: set<string>, keys: iset<string>)
    requires DistinctKeys(node) && KeysIn(node, keys) && forall k :: k in keys ==> SafeKey(k)
    requires IsPlace(node, p, forbidden) && IsPlace(node, q, forbidden)
    requires Rendered("$", node, p) == Rendered("$", node, q)
    ensures p == q
  {
    RenderedIsStepsText("$", node, p);
    RenderedIsStepsText("$", node, q);
    var s, t := Steps(node, p), Steps(node, q);
    assert ("$" + StepsText(s))[1..] == StepsText(s) && ("$" + StepsText(t))[1..] == StepsText(t);
    StepsAreSafe(node, p, keys);
    StepsAreSafe(node, q, keys);
    StepsTextInjective(s, t);
    StepsTellPlacesApart(node, p, q, forbidden);
  }

  /** Two different places that print as the same path. */
  ghost predicate PrintAlike(node: Json, p: seq<nat>, q: seq<nat>, forbidden: set<string>) {
    IsPlace(node, p, forbidden) && IsPlace(node, q, forbidden) && p != q &&
    Rendered("$", node, p) == Rendered("$", node, q)
  }

  /** A key that is two keys with a dot between them prints like the one under the other. */
  function Dotted(a: string, b: string): Json {
    Object([Field(a, Object([Field(b, Scalar)])), Field(a + ("." + b), Scalar)])
  }

  /** The printed paths can say less than keys and indices: for every key with a dot in it a payload where they do. */
  lemma PathsMayPrintAlike(a: string, b: string)
    ensures DistinctKeys(Dotted(a, b)) && KeysIn(Dotted(a, b), iset{a, b, a + ("." + b)})
    ensures PrintAlike(Dotted(a, b), [0, 0], [1], {b, a + ("." + b)})
  {
    var payload, inner := Dotted(a, b), Object([Field(b, Scalar)]);
    var p: seq<nat>, q: seq<nat> := [0, 0], [1];
    assert p[1..] == [0] && p[1..][1..] == [] && q[1..] == [];
    assert Rendered("$", payload, p) == Rendered("$" + ("." + a), inner, p[1..]) == "$" + ("." + a) + ("." + b);
    assert Rendered("$", payload, q) == "$" + ("." + (a + ("." + b)));
  }

  /** A list whose i-th item, after i scalars, is the given value. */
  function ItemAt(i: nat, item: Json): Json { List(seq(i + 1, j => if j == i then item else Scalar)) }

  /** A key that ends like an index prints like the item of a list under the rest of the key. */
  function Bracketed(a: string, i: nat): Json {
    var k := a + StepText(Index(i));
    var inner := Object([Field(k, Scalar)]);
    Object([Field(a, ItemAt(i, inner)), Field(k, inner)])
  }

  lemma BracketedKeys(a: string, i: nat)
    ensures var k := a + StepText(Index(i)); DistinctKeys(Bracketed(a, i)) && KeysIn(Bracketed(a, i), iset{a, k})
  {
    var k := a + StepText(Index(i));
    var inner := Object([Field(k, Scalar)]);
    var list := ItemAt(i, inner);
    assert |k| > |a|;
    assert DistinctKeys(inner) && KeysIn(inner, iset{a, k}) by {
      assert forall j :: 0 <= j < Count(inner) ==> Child(inner, j) == Scalar;
    }
    assert DistinctKeys(list) && KeysIn(list, iset{a, k}) by {
      assert forall j :: 0 <= j < Count(list) ==> Child(list, j) == Scalar || Child(list, j) == inner;
    }
    assert forall j :: 0 <= j < 2 ==> Child(Bracketed(a, i), j) == if j == 0 then list else inner;
  }

  lemma StepDown(path: string, node: Json, i: nat, rest: seq<nat>, forbidden: set<string>)
    requires i < Count(node) && rest != []
    ensures Rendered(path, node, [i] + rest) == Rendered(path + Segment(node, i), Child(node, i), rest)
    ensures IsPlace(node, [i] + rest, forbidden) <==> IsPlace(Child(node, i), rest, forbidden)
  {
    assert ([i] + rest)[1..] == rest;
  }

  lemma OnlyKey(path: string, k: string)
    ensures Rendered(path, Object([Field(k, Scalar)]), [0]) == path + StepText(Key(k))
    ensures IsPlace(Object([Field(k, Scalar)]), [0], {k})
  {
    var place: seq<nat> := [0];
    assert place[1..] == [];
  }

  lemma KeyBelowItem(path: string, list: Json, i: nat, k: string)
    requires list.List? && i < |list.items| && list.items[i] == Object([Field(k, Scalar)])
    ensures Rendered(path, list, [i] + [0]) == path + StepText(Index(i)) + StepText(Key(k))
    ensures IsPlace(list, [i] + [0], {k})
  {
    StepDown(path, list, i, [0], {k});
    OnlyKey(path + StepText(Index(i)), k);
  }

  lemma KeyBelowKey(path: string, payload: Json, n: nat, k: string)
    requires payload.Object? && n < |payload.fields| && payload.fields[n] == Field(k, Object([Field(k, Scalar)]))
    ensures Rendered(path, payload, [n] + [0]) == path + StepText(Key(k)) + StepText(Key(k))
    ensures IsPlace(payload, [n] + [0], {k})
  {
    StepDown(path, payload, n, [0], {k});
    OnlyKey(path + StepText(Key(k)), k);
  }

  lemma KeyThenIndex(a: string, index: string)
    ensures "$" + StepText(Key(a)) + index == "$" + StepText(Key(a + index))
  {
  }

  lemma IndexedPathsMayPrintAlike(a: string, i: nat)
    ensures PrintAlike(Bracketed(a, i), [0] + ([i] + [0]), [1] + [0], {a + StepText(Index(i))})
  {
    var k := a + StepText(Index(i));
    var payload := Bracketed(a, i);
    var list := payload.fields[0].value;
    StepDown("$", payload, 0, [i] + [0], {k});
    KeyBelowItem("$" + StepText(Key(a)), list, i, k);
    KeyBelowKey("$", payload, 1, k);
    KeyThenIndex(a, StepText(Index(i)));
    assert ([0] + ([i] + [0]))[0] != ([1] + [0])[0];
  }

  /** With any key it holds, a set of keys holds the parts it is made of. */
  ghost predicate Splits(keys: iset<string>) {
    (forall a, b :: a + ("." + b) in keys ==> a in keys && b in keys) &&
    forall a, i: nat :: a + StepText(Index(i)) in keys ==> a in keys
  }

  /**
    * Over a set of keys that holds the parts of its keys, printed paths tell the places of every payload
    * apart if and only if every key is safe.
    */
  lemma PrintedPathsDifferIff(keys: iset<string>)
    requires Splits(keys)
    ensures (forall k :: k in keys ==> SafeKey(k)) <==>
            forall node, p, q, forbidden ::
              DistinctKeys(node) && KeysIn(node, keys) ==> !PrintAlike(node, p, q, forbidden)
  {
    if forall k :: k in keys ==> SafeKey(k) {
      forall node, p, q, forbidden | DistinctKeys(node) && KeysIn(node, keys)
        ensures !PrintAlike(node, p, q, forbidden)
      {
        if PrintAlike(node, p, q, forbidden) {
          PrintedPathsDiffer(node, p, q, forbidden, keys);
        }
      }
    } else {
      var k :| k in keys && !SafeKey(k);
      UnsafeKeyPrintsAlike(keys, k);
    }
  }

  lemma {:induction false} MoreKeys(node: Json, few: iset<string>, many: iset<string>)
    requires KeysIn(node, few) && few <= many
    ensures KeysIn(node, many)
    decreases node
  {
    forall i | 0 <= i < Count(node) ensures KeysIn(Child(node, i), many) {
      MoreKeys(Child(node, i), few, many);
    }
  }

  lemma UnsafeKeyPrintsAlike(keys: iset<string>, k: string)
    requires Splits(keys) && k in keys && !SafeKey(k)
    ensures exists node, p, q, forbidden ::
      DistinctKeys(node) && KeysIn(node, keys) && PrintAlike(node, p, q, forbidden)
  {
    if '.' in k {
      var n :| 0 <= n < |k| && k[n] == '.';
      assert k == k[..n] + ("." + k[n + 1..]);
      DottedClashes(keys, k[..n], k[n + 1..]);
    } else {
      var i: nat :| EndsWith(k, StepText(Index(i)));
      assert k == k[..|k| - |StepText(Index(i))|] + StepText(Index(i));
      BracketedClashes(keys, k[..|k| - |StepText(Index(i))|], i);
    }
  }

  lemma DottedClashes(keys: iset<string>, a: string, b: string)
    requires Splits(keys) && a + ("." + b) in keys
    ensures exists node, p, q, forbidden ::
      DistinctKeys(node) && KeysIn(node, keys) && PrintAlike(node, p, q, forbidden)
  {
    PathsMayPrintAlike(a, b);
    MoreKeys(Dotted(a, b), iset{a, b, a + ("." + b)}, keys);
  }

  lemma BracketedClashes(keys: iset<string>, a: string, i: nat)
    requires Splits(keys) && a + StepText(Index(i)) in keys
    ensures exists node, p, q, forbidden ::
      DistinctKeys(node) && KeysIn(node, keys) && PrintAlike(node, p, q, forbidden)
  {
    BracketedKeys(a, i);
    IndexedPathsMayPrintAlike(a, i);
    MoreKeys(Bracketed(a, i), iset{a, a + StepText(Index(i))}, keys);
  }

  // Reading a printed path back

  /** Where the segment that starts before i ends: at the next dot or bracket. */
  function SegmentEnd(s: string, i: nat): (e: nat)
    requires i <= |s|
    ensures i <= e <= |s|
    decreases |s| - i
  {
    if i == |s| || s[i] == '.' || s[i] == '[' then i else SegmentEnd(s, i + 1)
  }

  predicate IsNumeral(s: string) { forall i :: 0 <= i < |s| ==> '0' <= s[i] <= '9' }

  /** A dot and a key, or a numeral in brackets, again and again; None for anything else. */
  function ReadPath(s: string): Option<seq<Step>>
    decreases |s|
  {
    if s == "" then Some([])
    else
      var e := SegmentEnd(s, 1);
      var rest := ReadPath(s[e..]);
      if rest.None? then None
      else if s[0] == '.' then Some([Key(s[1..e])] + rest.value)
      else if s[0] == '[' && e > 2 && s[e - 1] == ']' && IsNumeral(s[1..e - 1]) then
        Some([Index(Decimal.Value(s[1..e - 1]))] + rest.value)
      else None
  }

  predicate PlainKey(key: string) { '.' !in key && '[' !in key }

  predicate PlainStep(step: Step) { step.Key? ==> PlainKey(step.key) }

  lemma {:induction false} SegmentEndIs(s: string, i: nat, e: nat)
    requires i <= e <= |s| && (forall k :: i <= k < e ==> s[k] != '.' && s[k] != '[')
    requires e == |s| || s[e] == '.' || s[e] == '['
    ensures SegmentEnd(s, i) == e
    decreases |s| - i
  {
    if i < e {
      SegmentEndIs(s, i + 1, e);
    }
  }

  lemma {:induction false} ReadKey(key: string, rest: string)
    requires PlainKey(key) && (rest == "" || rest[0] == '.' || rest[0] == '[')
    ensures ReadPath("." + key + rest) ==
            if ReadPath(rest).None? then None else Some([Key(key)] + ReadPath(rest).value)
  {
    var s, e := "." + key + rest, 1 + |key|;
    assert forall k :: 1 <= k < e ==> s[k] == key[k - 1];
    SegmentEndIs(s, 1, e);
    assert s[e..] == rest && s[1..e] == key;
  }

  lemma {:induction false} ReadIndex(i: nat, rest: string)
    requires rest == "" || rest[0] == '.' || rest[0] == '['
    ensures ReadPath("[" + Decimal.Print(i) + "]" + rest) ==
            if ReadPath(rest).None? then None else Some([Index(i)] + ReadPath(rest).value)
  {
    var n := Decimal.Print(i);
    var s, e := "[" + n + "]" + rest, 2 + |n|;
    assert forall k :: 1 <= k < e - 1 ==> s[k] == n[k - 1];
    assert s[e - 1] == ']';
    SegmentEndIs(s, 1, e);
    assert s[e..] == rest && s[1..e - 1] == n;
    Decimal.ValuePrint(i);
  }

  lemma {:induction false} ReadSteps(steps: seq<Step>)
    requires forall i :: 0 <= i < |steps| ==> PlainStep(steps[i])
    ensures ReadPath(StepsText(steps)) == Some(steps)
    ensures var t := StepsText(steps); t == "" || t[0] == '.' || t[0] == '['
  {
    if steps != [] {
      var rest := StepsText(steps[1..]);
      assert steps == [steps[0]] + steps[1..];
      ReadSteps(steps[1..]);
      StepsTextFirst(steps[0], steps[1..]);
      match steps[0]
      case Key(key) => ReadKey(key, rest);
      case Index(i) => ReadIndex(i, rest);
    }
  }

  lemma {:induction false} StepsArePlain(node: Json, place: seq<nat>, keys: iset<string>)
    requires KeysIn(node, keys) && forall k :: k in keys ==> PlainKey(k)
    ensures forall i :: 0 <= i < |Steps(node, place)| ==> PlainStep(Steps(node, place)[i])
    decreases |place|
  {
    if place != [] && place[0] < Count(node) {
      StepsArePlain(Child(node, place[0]), place[1..], keys);
    }
  }

  /** With plain keys a printed path is a dollar sign, and then what reads back as the keys and indices on the way. */
  lemma {:induction false} PathsReadBack(node: Json, place: seq<nat>, keys: iset<string>)
    requires KeysIn(node, keys) && forall k :: k in keys ==> PlainKey(k)
    ensures var path := Rendered("$", node, place);
      "$" <= path && ReadPath(path[1..]) == Some(Steps(node, place))
  {
    RenderedIsStepsText("$", node, place);
    StepsArePlain(node, place, keys);
    ReadSteps(Steps(node, place));
    assert ("$" + StepsText(Steps(node, place)))[1..] == StepsText(Steps(node, place));
  }
}
