/** The detection decoder of `Aero2Solver` (src/solver.rs): the label table
    read from the names file, and what `solve` does with the network's
    detections once `predict` has produced them. */
module Solver {
  import opened Wrappers

  /** One detection as `best_class` reports it: the x coordinate of its
      bounding box, the index of its most probable class and that class's
      probability. */
  datatype Detection = Detection(x: real, classIndex: nat, prob: real)

  /** A detection that passed the threshold, paired with its label. */
  datatype Glyph = Glyph(x: real, name: string)

  /** "Invalid captcha length. Expected: …, Got: …" */
  datatype SolveError = LengthMismatch(expected: nat, actual: nat)

  // ---------------------------------------------------------------------
  // The label table: the lines of the names file, as Rust's `str::lines`
  // yields them.

  /** Index of the first `c` in `s`, or `|s|` when there is none. */
  function IndexOf(s: string, c: char): (i: nat)
    ensures i <= |s|
    ensures i < |s| ==> s[i] == c
    ensures forall k :: 0 <= k < i ==> s[k] != c
  {
    if s == [] || s[0] == c then 0 else 1 + IndexOf(s[1..], c)
  }

  /** A line ended by "\n" also loses one "\r" in front of it. */
  function StripCarriageReturn(line: string): string
  {
    if line != [] && line[|line| - 1] == '\r' then line[..|line| - 1] else line
  }

  /** The lines of `text`: split at "\n", a "\r\n" ending counts as one line
      ending, and a final line ending does not open an empty last line. */
  function Lines(text: string): (lines: seq<string>)
    ensures forall k :: 0 <= k < |lines| ==> '\n' !in lines[k]
    decreases |text|
  {
    if text == [] then []
    else
      var i := IndexOf(text, '\n');
      if i == |text| then [text]
      else [StripCarriageReturn(text[..i])] + Lines(text[i + 1..])
  }

  /** A names file written line by line, each line followed by `eol`. */
  function Joined(lines: seq<string>, eol: string): string
  {
    if lines == [] then [] else lines[0] + eol + Joined(lines[1..], eol)
  }

  /** No line ends in "\r" (which a "\n" ending would swallow). */
  predicate NoTrailingCarriageReturn(lines: seq<string>)
  {
    forall k :: 0 <= k < |lines| ==> lines[k] == [] || lines[k][|lines[k]| - 1] != '\r'
  }

  /** Reading one written line back. */
  lemma LinesOfFirst(line: string, eol: string, rest: string)
    requires eol == "\n" || eol == "\r\n"
    requires '\n' !in line
    requires eol == "\n" ==> line == [] || line[|line| - 1] != '\r'
    ensures Lines(line + eol + rest) == [line] + Lines(rest)
  {
    var text := line + eol + rest;
    var end := |line| + |eol| - 1;
    assert text[end] == '\n';
    forall k | 0 <= k < end ensures text[k] != '\n' {
      if k < |line| {
        assert text[k] == line[k];
      } else {
        assert text[k] == '\r';
      }
    }
    assert IndexOf(text, '\n') == end;
    if eol == "\n" {
      assert text[..end] == line;
    } else {
      assert text[..end] == line + "\r";
      assert (line + "\r")[..|line|] == line;
    }
    assert StripCarriageReturn(text[..end]) == line;
    assert text[end + 1..] == rest;
  }

  /** The label table is the names file's lines, in order: reading back a file
      written with "\n" or "\r\n" line endings yields the lines written. */
  lemma {:induction false} LabelTableRoundTrip(lines: seq<string>, eol: string)
    requires eol == "\n" || eol == "\r\n"
    requires forall k :: 0 <= k < |lines| ==> '\n' !in lines[k]
    requires eol == "\n" ==> NoTrailingCarriageReturn(lines)
    ensures Lines(Joined(lines, eol)) == lines
  {
    if lines != [] {
      var tail := lines[1..];
      assert Joined(lines, eol) == lines[0] + eol + Joined(tail, eol);
      assert eol == "\n" ==> lines[0] == [] || lines[0][|lines[0]| - 1] != '\r';
      LinesOfFirst(lines[0], eol, Joined(tail, eol));
      assert forall k :: 0 <= k < |tail| ==> tail[k] == lines[k + 1];
      LabelTableRoundTrip(tail, eol);
      assert lines == [lines[0]] + tail;
    }
  }

  // ---------------------------------------------------------------------
  // Filtering by confidence

  /** `best_class(Some(min_threshold))` yields a class exactly when the best
      class's probability reaches the threshold. */
  predicate Confident(d: Detection, minThreshold: real)
  {
    d.prob >= minThreshold
  }

  /** The detections that survive the threshold, in the network's order. */
  function KeepConfident(detections: seq<Detection>, minThreshold: real): (kept: seq<Detection>)
    ensures |kept| <= |detections|
    ensures forall d :: d in kept <==> d in detections && Confident(d, minThreshold)
    ensures multiset(kept) <= multiset(detections)
  {
    if detections == [] then []
    else
      assert detections == [detections[0]] + detections[1..];
      (if Confident(detections[0], minThreshold) then [detections[0]] else [])
      + KeepConfident(detections[1..], minThreshold)
  }

  /** The filter keeps every copy of a confident detection and no copy of
      any other. */
  lemma {:induction false} KeepConfidentCounts(detections: seq<Detection>, minThreshold: real, d: Detection)
    ensures multiset(KeepConfident(detections, minThreshold))[d]
            == if Confident(d, minThreshold) then multiset(detections)[d] else 0
  {
    if detections != [] {
      var first, rest := detections[0], detections[1..];
      KeepConfidentCounts(rest, minThreshold, d);
      var head := if Confident(first, minThreshold) then [first] else [];
      assert KeepConfident(detections, minThreshold) == head + KeepConfident(rest, minThreshold);
      assert multiset(KeepConfident(detections, minThreshold)) == multiset(head) + multiset(KeepConfident(rest, minThreshold));
      assert detections == [first] + rest;
      assert multiset(detections) == multiset{first} + multiset(rest);
    }
  }

  /** The filter keeps the network's order: filtering two runs of
      detections one after the other is filtering each and concatenating. */
  lemma {:induction false} KeepConfidentAppend(front: seq<Detection>, back: seq<Detection>, minThreshold: real)
    ensures KeepConfident(front + back, minThreshold) == KeepConfident(front, minThreshold) + KeepConfident(back, minThreshold)
  {
    if front == [] {
      assert front + back == back;
    } else {
      var first, rest := front[0], front[1..];
      var head := if Confident(first, minThreshold) then [first] else [];
      KeepConfidentAppend(rest, back, minThreshold);
      var both := front + back;
      TailOfConcat(front, back);
      assert KeepConfident(both, minThreshold) == head + KeepConfident(rest + back, minThreshold);
      assert KeepConfident(front, minThreshold) == head + KeepConfident(rest, minThreshold);
      ConcatAssociative(head, KeepConfident(rest, minThreshold), KeepConfident(back, minThreshold));
    }
  }

  /** Raising the threshold never adds a detection and lowering it never
      removes one: what survives the higher threshold is exactly what the
      higher threshold keeps of the lower threshold's survivors, in order. */
  lemma {:induction false} ThresholdMonotone(detections: seq<Detection>, low: real, high: real)
    requires low <= high
    ensures KeepConfident(KeepConfident(detections, low), high) == KeepConfident(detections, high)
    ensures multiset(KeepConfident(detections, high)) <= multiset(KeepConfident(detections, low))
    ensures |KeepConfident(detections, high)| <= |KeepConfident(detections, low)|
  {
    if detections != [] {
      var d, rest := detections[0], detections[1..];
      ThresholdMonotone(rest, low, high);
      var keptLow := KeepConfident(detections, low);
      if Confident(d, low) {
        assert keptLow == [d] + KeepConfident(rest, low);
        assert keptLow[0] == d && keptLow[1..] == KeepConfident(rest, low);
        if Confident(d, high) {
          calc {
            KeepConfident(keptLow, high);
            [d] + KeepConfident(keptLow[1..], high);
            [d] + KeepConfident(rest, high);
            KeepConfident(detections, high);
          }
        } else {
          calc {
            KeepConfident(keptLow, high);
            KeepConfident(keptLow[1..], high);
            KeepConfident(rest, high);
            KeepConfident(detections, high);
          }
        }
      } else {
        assert keptLow == KeepConfident(rest, low);
        assert !Confident(d, high);
        assert KeepConfident(detections, high) == KeepConfident(rest, high);
      }
    }
  }

  /** Every kept detection can be labelled: the source indexes the label
      table with its class index and panics past the end. */
  predicate LabelsCover(labels: seq<string>, kept: seq<Detection>)
  {
    forall d :: d in kept ==> d.classIndex < |labels|
  }

  /** Each kept detection with the label `object_labels[class_index]`. */
  function Glyphs(labels: seq<string>, kept: seq<Detection>): (glyphs: seq<Glyph>)
    requires LabelsCover(labels, kept)
    ensures |glyphs| == |kept|
    ensures forall k :: 0 <= k < |kept| ==> glyphs[k] == Glyph(kept[k].x, labels[kept[k].classIndex])
  {
    if kept == [] then []
    else [Glyph(kept[0].x, labels[kept[0].classIndex])] + Glyphs(labels, kept[1..])
  }

  /** The `flat_map` of src/solver.rs: filter by threshold, then label. */
  function Keep(labels: seq<string>, detections: seq<Detection>, minThreshold: real): seq<Glyph>
    requires LabelsCover(labels, KeepConfident(detections, minThreshold))
  {
    Glyphs(labels, KeepConfident(detections, minThreshold))
  }

  // ---------------------------------------------------------------------
  // Ordering by x

  predicate SortedByX(glyphs: seq<Glyph>)
  {
    forall i, j :: 0 <= i < j < |glyphs| ==> glyphs[i].x <= glyphs[j].x
  }

  /** Inserts `g` after every element whose x is at most `g.x`. */
  function InsertByX(sorted: seq<Glyph>, g: Glyph): (r: seq<Glyph>)
    ensures |r| == |sorted| + 1
  {
    if sorted == [] || sorted[|sorted| - 1].x <= g.x then sorted + [g]
    else InsertByX(sorted[..|sorted| - 1], g) + [sorted[|sorted| - 1]]
  }

  /** The order `sort_by` on x produces: a stable sort, here written as an
      insertion sort that inserts the elements in their original order. */
  function StableSortByX(glyphs: seq<Glyph>): (sorted: seq<Glyph>)
    ensures |sorted| == |glyphs|
  {
    if glyphs == [] then []
    else InsertByX(StableSortByX(glyphs[..|glyphs| - 1]), glyphs[|glyphs| - 1])
  }

  /** The glyphs whose x equals `v`, in order: stability is the statement
      that sorting leaves each of these subsequences as it was. */
  function WithX(glyphs: seq<Glyph>, v: real): seq<Glyph>
  {
    if glyphs == [] then []
    else
      var last := glyphs[|glyphs| - 1];
      WithX(glyphs[..|glyphs| - 1], v) + (if last.x == v then [last] else [])
  }

  /** Inserting adds exactly the inserted glyph. */
  lemma {:induction false} InsertByXAdds(sorted: seq<Glyph>, g: Glyph)
    ensures multiset(InsertByX(sorted, g)) == multiset(sorted) + multiset{g}
  {
    if sorted != [] && sorted[|sorted| - 1].x > g.x {
      var init, last := sorted[..|sorted| - 1], sorted[|sorted| - 1];
      InsertByXAdds(init, g);
      assert sorted == init + [last];
    }
  }

  /** Sorting only reorders: the sorted glyphs are a permutation of the input. */
  lemma {:induction false} StableSortByXPermutes(glyphs: seq<Glyph>)
    ensures multiset(StableSortByX(glyphs)) == multiset(glyphs)
  {
    if glyphs != [] {
      var init, last := glyphs[..|glyphs| - 1], glyphs[|glyphs| - 1];
      StableSortByXPermutes(init);
      InsertByXAdds(StableSortByX(init), last);
      assert glyphs == init + [last];
    }
  }

  lemma {:induction false} InsertByXSorted(sorted: seq<Glyph>, g: Glyph)
    requires SortedByX(sorted)
    ensures SortedByX(InsertByX(sorted, g))
  {
    if sorted != [] && sorted[|sorted| - 1].x > g.x {
      var init, last := sorted[..|sorted| - 1], sorted[|sorted| - 1];
      InsertByXSorted(init, g);
      var front := InsertByX(init, g);
      InsertByXAdds(init, g);
      forall y | y in front ensures y.x <= last.x {
        assert y in multiset(front);
        assert y in multiset(init) || y == g;
      }
      SortedAppend(front, last);
    }
  }

  /** A glyph at or right of every glyph of a sorted list extends it. */
  lemma SortedAppend(front: seq<Glyph>, last: Glyph)
    requires SortedByX(front)
    requires forall y :: y in front ==> y.x <= last.x
    ensures SortedByX(front + [last])
  {
    var r := front + [last];
    forall i, j | 0 <= i < j < |r| ensures r[i].x <= r[j].x {
      assert r[i] == front[i];
      if j < |front| {
        assert r[j] == front[j];
      } else {
        assert r[j] == last && front[i] in front;
      }
    }
  }

  lemma {:induction false} InsertByXKeepsTies(sorted: seq<Glyph>, g: Glyph, v: real)
    ensures WithX(InsertByX(sorted, g), v) == WithX(sorted, v) + (if g.x == v then [g] else [])
  {
    if sorted == [] || sorted[|sorted| - 1].x <= g.x {
      assert (sorted + [g])[..|sorted|] == sorted;
    } else {
      var init, last := sorted[..|sorted| - 1], sorted[|sorted| - 1];
      InsertByXKeepsTies(init, g, v);
      var front := InsertByX(init, g);
      var tieLast := if last.x == v then [last] else [];
      var tieG := if g.x == v then [g] else [];
      assert (front + [last])[..|front|] == front;
      assert WithX(front + [last], v) == WithX(front, v) + tieLast;
      assert WithX(sorted, v) == WithX(init, v) + tieLast;
      // `last` lies right of `g`, so at most one of them has x equal to `v`.
      assert tieLast == [] || tieG == [];
    }
  }

  /** Sorting by x puts the glyphs in non-decreasing x order. */
  lemma {:induction false} StableSortByXSorted(glyphs: seq<Glyph>)
    ensures SortedByX(StableSortByX(glyphs))
  {
    if glyphs != [] {
      StableSortByXSorted(glyphs[..|glyphs| - 1]);
      InsertByXSorted(StableSortByX(glyphs[..|glyphs| - 1]), glyphs[|glyphs| - 1]);
    }
  }

  /** `sort_by` is stable: glyphs with equal x keep their relative order. */
  lemma {:induction false} StableSortByXStable(glyphs: seq<Glyph>, v: real)
    ensures WithX(StableSortByX(glyphs), v) == WithX(glyphs, v)
  {
    if glyphs != [] {
      var init, last := glyphs[..|glyphs| - 1], glyphs[|glyphs| - 1];
      StableSortByXStable(init, v);
      InsertByXKeepsTies(StableSortByX(init), last, v);
    }
  }

  /** Inserting into a sequence at the first place after which every element
      has a larger x. */
  lemma {:induction false} InsertByXAt(sorted: seq<Glyph>, g: Glyph, j: nat)
    requires j <= |sorted|
    requires j == 0 || sorted[j - 1].x <= g.x
    requires forall k :: j <= k < |sorted| ==> sorted[k].x > g.x
    ensures InsertByX(sorted, g) == sorted[..j] + [g] + sorted[j..]
    decreases |sorted|
  {
    if j < |sorted| {
      var init, last := sorted[..|sorted| - 1], sorted[|sorted| - 1];
      assert last.x > g.x;
      assert InsertByX(sorted, g) == InsertByX(init, g) + [last];
      assert j == 0 || init[j - 1].x <= g.x;
      assert forall k :: j <= k < |init| ==> init[k].x > g.x;
      InsertByXAt(init, g, j);
      var inserted := init[..j] + [g] + init[j..];
      assert InsertByX(sorted, g) == inserted + [last];
      assert init[..j] == sorted[..j];
      assert init[j..] + [last] == sorted[j..];
      assert inserted + [last] == sorted[..j] + [g] + (init[j..] + [last]);
    } else {
      assert sorted == [] || sorted[|sorted| - 1].x <= g.x;
      assert InsertByX(sorted, g) == sorted + [g];
      assert sorted[..j] == sorted && sorted[j..] == [];
    }
  }

  /** After moving `before[i]` left to position `j` past larger elements, the
      first `i + 1` elements are the insertion of `before[i]` into `before[..i]`. */
  lemma {:induction false} ShiftedIsInsert(before: seq<Glyph>, after: seq<Glyph>, i: nat, j: nat)
    requires j <= i < |before| == |after|
    requires forall k :: 0 <= k < j ==> after[k] == before[k]
    requires after[j] == before[i]
    requires forall k :: j < k <= i ==> after[k] == before[k - 1]
    requires j == 0 || before[j - 1].x <= before[i].x
    requires forall k :: j <= k < i ==> before[k].x > before[i].x
    ensures after[..i + 1] == InsertByX(before[..i], before[i])
  {
    var prefix, g := before[..i], before[i];
    InsertByXAt(prefix, g, j);
    assert after[..i + 1] == prefix[..j] + [g] + prefix[j..];
  }

  /** One step of the insertion sort: moves `a[i]` left past every element
      of `a[..i]` with a larger x, and returns where it landed. */
  method InsertLeft(a: array<Glyph>, i: nat) returns (j: nat)
    requires i < a.Length
    modifies a
    ensures j <= i
    ensures forall k :: 0 <= k < j ==> a[k] == old(a[k])
    ensures a[j] == old(a[i])
    ensures forall k :: j < k <= i ==> a[k] == old(a[k - 1])
    ensures forall k :: i < k < a.Length ==> a[k] == old(a[k])
    ensures j == 0 || old(a[j - 1]).x <= old(a[i]).x
    ensures forall k :: j <= k < i ==> old(a[k]).x > old(a[i]).x
  {
    var g := a[i];
    j := i;
    while j > 0 && a[j - 1].x > g.x
      invariant 0 <= j <= i
      invariant forall k {:trigger a[k]} :: 0 <= k < j ==> a[k] == old(a[k])
      invariant forall k {:trigger a[k]} :: j < k <= i ==> a[k] == old(a[k - 1])
      invariant forall k {:trigger a[k]} :: i < k < a.Length ==> a[k] == old(a[k])
      invariant forall k :: j <= k < i ==> old(a[k]).x > g.x
    {
      a[j] := a[j - 1];
      j := j - 1;
    }
    a[j] := g;
  }

  /** Sorting one more element is inserting it into the sorted prefix. */
  lemma StableSortByXStep(glyphs: seq<Glyph>, i: nat)
    requires i < |glyphs|
    ensures StableSortByX(glyphs[..i + 1]) == InsertByX(StableSortByX(glyphs[..i]), glyphs[i])
  {
    assert glyphs[..i + 1][..i] == glyphs[..i];
  }

  /** The in-place `sort_by` on the kept detections: an insertion sort. */
  method SortByX(a: array<Glyph>)
    modifies a
    ensures a[..] == StableSortByX(old(a[..]))
  {
    ghost var original := a[..];
    var i := 0;
    while i < a.Length
      invariant 0 <= i <= a.Length
      invariant a[..i] == StableSortByX(original[..i])
      invariant forall k :: i <= k < a.Length ==> a[k] == original[k]
    {
      ghost var before := a[..];
      var j := InsertLeft(a, i);
      ghost var after := a[..];
      ShiftedIsInsert(before, after, i, j);
      assert before[..i] == StableSortByX(original[..i]);
      StableSortByXStep(original, i);
      assert after[..i + 1] == a[..i + 1];
      i := i + 1;
    }
    assert original[..a.Length] == original;
  }

  // ---------------------------------------------------------------------
  // The whole decode

  /** The labels concatenated in order (`collect::<String>()`). */
  function Spell(glyphs: seq<Glyph>): string
  {
    if glyphs == [] then [] else glyphs[0].name + Spell(glyphs[1..])
  }

  /** With one character per label, the solution has one character per glyph,
      in the glyphs' order. */
  lemma {:induction false} SpellOneCharacterEach(glyphs: seq<Glyph>)
    requires forall k :: 0 <= k < |glyphs| ==> |glyphs[k].name| == 1
    ensures |Spell(glyphs)| == |glyphs|
    ensures forall k :: 0 <= k < |glyphs| ==> Spell(glyphs)[k] == glyphs[k].name[0]
  {
    if glyphs != [] {
      SpellOneCharacterEach(glyphs[1..]);
      forall k | 0 <= k < |glyphs| ensures Spell(glyphs)[k] == glyphs[k].name[0] {
        if k > 0 {
          assert Spell(glyphs)[k] == Spell(glyphs[1..])[k - 1];
          assert glyphs[1..][k - 1] == glyphs[k];
        }
      }
    }
  }

  /** What `solve` returns for a given set of detections. */
  function Decode(labels: seq<string>, detections: seq<Detection>, minThreshold: real, expectedLength: nat)
    : Result<string, SolveError>
    requires LabelsCover(labels, KeepConfident(detections, minThreshold))
  {
    var kept := Keep(labels, detections, minThreshold);
    if |kept| != expectedLength then Err(LengthMismatch(expectedLength, |kept|))
    else Ok(Spell(StableSortByX(kept)))
  }

  /** A successful decode spells exactly `expectedLength` glyphs, one per
      kept detection, nothing dropped or duplicated, in non-decreasing x
      order, with ties in the network's order. */
  lemma DecodeSuccess(labels: seq<string>, detections: seq<Detection>, minThreshold: real, expectedLength: nat, v: real)
    requires LabelsCover(labels, KeepConfident(detections, minThreshold))
    requires Decode(labels, detections, minThreshold, expectedLength).Ok?
    ensures var kept := Keep(labels, detections, minThreshold);
            var order := StableSortByX(kept);
            && |order| == |KeepConfident(detections, minThreshold)| == expectedLength
            && SortedByX(order)
            && multiset(order) == multiset(kept)
            && WithX(order, v) == WithX(kept, v)
            && Decode(labels, detections, minThreshold, expectedLength).value == Spell(order)
  {
    var kept := Keep(labels, detections, minThreshold);
    StableSortByXSorted(kept);
    StableSortByXPermutes(kept);
    StableSortByXStable(kept, v);
  }

  /** With single-character labels, as in the captcha's names file, a
      successful decode is a string of `expectedLength` characters whose k-th
      character is the label of the k-th kept detection from the left. */
  lemma DecodeReadsLeftToRight(labels: seq<string>, detections: seq<Detection>, minThreshold: real, expectedLength: nat)
    requires forall k :: 0 <= k < |labels| ==> |labels[k]| == 1
    requires LabelsCover(labels, KeepConfident(detections, minThreshold))
    requires Decode(labels, detections, minThreshold, expectedLength).Ok?
    ensures var order := StableSortByX(Keep(labels, detections, minThreshold));
            var s := Decode(labels, detections, minThreshold, expectedLength).value;
            && |s| == expectedLength
            && |order| == expectedLength
            && (forall k :: 0 <= k < |order| ==> |order[k].name| == 1 && s[k] == order[k].name[0])
            && (forall i, j :: 0 <= i < j < |s| ==> order[i].x <= order[j].x)
  {
    var kept := Keep(labels, detections, minThreshold);
    var order := StableSortByX(kept);
    StableSortByXSorted(kept);
    StableSortByXPermutes(kept);
    PermutedNamesOneCharacter(kept, order);
    SpellOneCharacterEach(order);
  }

  lemma PermutedNamesOneCharacter(glyphs: seq<Glyph>, order: seq<Glyph>)
    requires multiset(order) == multiset(glyphs)
    requires forall k :: 0 <= k < |glyphs| ==> |glyphs[k].name| == 1
    ensures forall k :: 0 <= k < |order| ==> |order[k].name| == 1
  {
    forall k | 0 <= k < |order| ensures |order[k].name| == 1 {
      assert order[k] in multiset(glyphs);
      var m :| 0 <= m < |glyphs| && glyphs[m] == order[k];
    }
  }

  /** The solver proper: the length check, the in-place sort and the
      concatenation, on the detections the network produced. */
  method Solve(labels: seq<string>, detections: seq<Detection>, minThreshold: real, expectedLength: nat)
    returns (r: Result<string, SolveError>)
    requires LabelsCover(labels, KeepConfident(detections, minThreshold))
    ensures r.Err? <==> |KeepConfident(detections, minThreshold)| != expectedLength
    ensures r.Err? ==> r.error == LengthMismatch(expectedLength, |KeepConfident(detections, minThreshold)|)
    ensures r == Decode(labels, detections, minThreshold, expectedLength)
  {
    var kept := Keep(labels, detections, minThreshold);
    if |kept| != expectedLength {
      return Err(LengthMismatch(expectedLength, |kept|));
    }
    var a := new Glyph[|kept|](k requires 0 <= k < |kept| => kept[k]);
    assert a[..] == kept;
    SortByX(a);
    r := Ok(Spell(a[..]));
  }
}
