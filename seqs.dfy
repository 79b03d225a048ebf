/** Sequence helpers shared by the expander (string joining) and the layout
    engine (glue between siblings and between words). */
module Seqs {

  /** Joins `parts` in order, with one `sep` between every two successive
      parts and none before the first or after the last: Rust's
      `join(" ")`, and the loops that push a separator when `i > 0`. */
  function Intercalate<T>(parts: seq<seq<T>>, sep: T): (r: seq<T>)
    ensures |parts| == 0 ==> r == []
    ensures |parts| == 1 ==> r == parts[0]
  {
    if |parts| == 0 then []
    else if |parts| == 1 then parts[0]
    else Intercalate(parts[..|parts| - 1], sep) + [sep] + parts[|parts| - 1]
  }

  /** Concatenation of `parts`, in order. */
  function Concat<T>(parts: seq<seq<T>>): (r: seq<T>)
  {
    if |parts| == 0 then [] else Concat(parts[..|parts| - 1]) + parts[|parts| - 1]
  }

  /** Sum of the lengths of `parts`. */
  function TotalLength<T>(parts: seq<seq<T>>): nat
  {
    if |parts| == 0 then 0 else TotalLength(parts[..|parts| - 1]) + |parts[|parts| - 1]|
  }

  /** Extending the parts by one extends the joined sequence by a separator
      (unless it was empty of parts) and the new part. */
  lemma IntercalateSnoc<T>(parts: seq<seq<T>>, p: seq<T>, sep: T)
    ensures Intercalate(parts + [p], sep)
         == Intercalate(parts, sep) + (if |parts| > 0 then [sep] else []) + p
  {
    assert (parts + [p])[..|parts|] == parts;
  }

  /** A joined sequence holds every part plus exactly one separator between
      each two neighbours. */
  lemma {:induction false} IntercalateLength<T>(parts: seq<seq<T>>, sep: T)
    requires |parts| > 0
    ensures |Intercalate(parts, sep)| == TotalLength(parts) + |parts| - 1
  {
    if |parts| > 1 {
      IntercalateLength(parts[..|parts| - 1], sep);
    }
  }

  /** Concatenation distributes over `+`. */
  lemma {:induction false} ConcatAppend<T>(a: seq<seq<T>>, b: seq<seq<T>>)
    ensures Concat(a + b) == Concat(a) + Concat(b)
    decreases |b|
  {
    if |b| > 0 {
      assert (a + b)[..|a + b| - 1] == a + b[..|b| - 1];
      ConcatAppend(a, b[..|b| - 1]);
    } else {
      assert a + b == a;
    }
  }

  /** Concatenation of one part followed by more. */
  lemma ConcatCons<T>(p: seq<T>, rest: seq<seq<T>>)
    ensures Concat([p] + rest) == p + Concat(rest)
  {
    ConcatAppend([p], rest);
    assert [p][..0] == [];
  }

  /** Joining single-element parts alternates the elements with the
      separator: elements at even positions, separators at odd ones. */
  lemma {:induction false} IntercalateSingletons<T>(parts: seq<seq<T>>, sep: T)
    requires |parts| > 0
    requires forall k :: 0 <= k < |parts| ==> |parts[k]| == 1
    ensures |Intercalate(parts, sep)| == 2 * |parts| - 1
    ensures forall k :: 0 <= k < |parts| ==> Intercalate(parts, sep)[2 * k] == parts[k][0]
    ensures forall k :: 0 <= k < |parts| - 1 ==> Intercalate(parts, sep)[2 * k + 1] == sep
  {
    if |parts| > 1 {
      var init := parts[..|parts| - 1];
      IntercalateSingletons(init, sep);
      var r := Intercalate(parts, sep);
      assert r == Intercalate(init, sep) + [sep] + parts[|parts| - 1];
      forall k | 0 <= k < |parts| ensures r[2 * k] == parts[k][0] {
        if k < |parts| - 1 {
          assert init[k] == parts[k];
        }
      }
    }
  }

  /** Where part `k` starts in the joined sequence: after the parts before
      it and one separator for each of them. */
  function PartStart<T>(parts: seq<seq<T>>, k: nat): nat
    requires k <= |parts|
  {
    TotalLength(parts[..k]) + k
  }

  /** One more part adds its length to the total. */
  lemma TotalLengthStep<T>(parts: seq<seq<T>>, k: nat)
    requires k < |parts|
    ensures TotalLength(parts[..k + 1]) == TotalLength(parts[..k]) + |parts[k]|
  {
    assert parts[..k + 1][..k] == parts[..k];
  }

  /** The joined sequence holds each part at its start, and a separator
      right after every part but the last. */
  lemma {:induction false} IntercalateParts<T>(parts: seq<seq<T>>, sep: T, k: nat)
    requires k < |parts|
    ensures PartStart(parts, k) + |parts[k]| + (if k + 1 < |parts| then 1 else 0) <= |Intercalate(parts, sep)|
    ensures Intercalate(parts, sep)[PartStart(parts, k)..PartStart(parts, k) + |parts[k]|] == parts[k]
    ensures k + 1 < |parts| ==> Intercalate(parts, sep)[PartStart(parts, k) + |parts[k]|] == sep
    decreases |parts|
  {
    var n := |parts|;
    if n == 1 {
      assert parts[..0] == [];
    } else if k < n - 1 {
      IntercalateParts(parts[..n - 1], sep, k);
      PartBeforeLast(parts, sep, k);
    } else {
      LastPart(parts, sep);
    }
  }

  /** A part before the last sits where it sits without the last part. */
  lemma PartBeforeLast<T>(parts: seq<seq<T>>, sep: T, k: nat)
    requires 1 < |parts| && k < |parts| - 1
    requires var init := parts[..|parts| - 1];
      && PartStart(init, k) + |init[k]| + (if k + 1 < |init| then 1 else 0) <= |Intercalate(init, sep)|
      && Intercalate(init, sep)[PartStart(init, k)..PartStart(init, k) + |init[k]|] == init[k]
      && (k + 1 < |init| ==> Intercalate(init, sep)[PartStart(init, k) + |init[k]|] == sep)
    ensures PartStart(parts, k) + |parts[k]| + 1 <= |Intercalate(parts, sep)|
    ensures Intercalate(parts, sep)[PartStart(parts, k)..PartStart(parts, k) + |parts[k]|] == parts[k]
    ensures Intercalate(parts, sep)[PartStart(parts, k) + |parts[k]|] == sep
  {
    var n := |parts|;
    var init := parts[..n - 1];
    var left := Intercalate(init, sep);
    assert Intercalate(parts, sep) == left + [sep] + parts[n - 1];
    assert init[..k] == parts[..k] && init[k] == parts[k];
    var a := PartStart(parts, k);
    var b := a + |parts[k]|;
    assert a == PartStart(init, k);
    if k == n - 2 {
      IntercalateLength(init, sep);
      TotalLengthStep(init, k);
      assert init[..k + 1] == init;
      assert b == |left|;
    } else {
      assert b < |left|;
    }
    assert Intercalate(parts, sep)[a..b] == left[a..b];
  }

  /** The last part ends the joined sequence. */
  lemma LastPart<T>(parts: seq<seq<T>>, sep: T)
    requires 1 < |parts|
    ensures var k := |parts| - 1;
      && PartStart(parts, k) + |parts[k]| <= |Intercalate(parts, sep)|
      && Intercalate(parts, sep)[PartStart(parts, k)..PartStart(parts, k) + |parts[k]|] == parts[k]
  {
    var n := |parts|;
    var init := parts[..n - 1];
    var left := Intercalate(init, sep);
    assert Intercalate(parts, sep) == left + [sep] + parts[n - 1];
    IntercalateLength(init, sep);
    assert parts[..n - 1] == init;
  }

  /** `IntercalateParts` for a joined sequence given as a value, so that
      the definitions the parts come from stay out of the proof. */
  lemma JoinedParts<T>(r: seq<T>, parts: seq<seq<T>>, sep: T, k: nat)
    requires k < |parts| && r == Intercalate(parts, sep)
    ensures PartStart(parts, k) + |parts[k]| <= |r|
    ensures r[PartStart(parts, k)..PartStart(parts, k) + |parts[k]|] == parts[k]
    ensures k + 1 < |parts| ==> PartStart(parts, k) + |parts[k]| < |r| && r[PartStart(parts, k) + |parts[k]|] == sep
  {
    IntercalateParts(parts, sep, k);
    if k + 1 < |parts| {
      assert r[PartStart(parts, k) + |parts[k]|] == sep;
    }
  }
}
