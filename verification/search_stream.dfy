/** The home page's live-search stream: every edit of the search box goes
    through `debounceTime(300)` and then `distinctUntilChanged()` before it
    triggers a load. Time is an explicit parameter (milliseconds). */
module SearchStream {
  import opened Wrappers
  import opened Indices

  /** An edit of the search box: when it happened and the box's text after it. */
  datatype Keystroke = Keystroke(time: int, text: string)

  /** The quiet period, in milliseconds, that lets a value through. */
  const DebounceWindow: int := 300

  /** Keystroke `i` has been emitted by the debounce, observed at time `now`:
      its window has run out by `now`, and the next keystroke, if any, did
      not come within that window. */
  predicate Settles(ks: seq<Keystroke>, now: int, i: nat) {
    && i < |ks|
    && now - ks[i].time >= DebounceWindow
    && (i + 1 < |ks| ==> ks[i + 1].time - ks[i].time >= DebounceWindow)
  }

  /** The positions of the keystrokes that settle, ascending. */
  function Settled(ks: seq<Keystroke>, now: int): (idx: seq<nat>)
    ensures |idx| <= |ks|
    ensures forall k :: 0 <= k < |idx| ==> Settles(ks, now, idx[k])
    ensures Ascending(idx)
    ensures forall i :: 0 <= i < |ks| && Settles(ks, now, i) ==> i in idx
  {
    WhereSpec((i: nat) => Settles(ks, now, i), 0, |ks|);
    Where((i: nat) => Settles(ks, now, i), 0, |ks|)
  }

  /** The values `debounceTime(300)` has emitted by time `now`, in order. */
  function Debounce(ks: seq<Keystroke>, now: int): (texts: seq<string>)
    ensures |texts| == |Settled(ks, now)| <= |ks|
    ensures forall k :: 0 <= k < |texts| ==> texts[k] == ks[Settled(ks, now)[k]].text
  {
    var idx := Settled(ks, now);
    seq(|idx|, k requires 0 <= k < |idx| => ks[idx[k]].text)
  }

  /** Within a burst (every gap shorter than the window) nothing but the
      latest value comes through, and only once the window after it ran out. */
  lemma DebounceBurst(ks: seq<Keystroke>, now: int)
    requires |ks| > 0
    requires forall i, j :: 0 <= i < |ks| && 0 <= j < |ks| && j == i + 1 ==> ks[j].time - ks[i].time < DebounceWindow
    ensures now - ks[|ks| - 1].time >= DebounceWindow ==> Debounce(ks, now) == [ks[|ks| - 1].text]
    ensures now - ks[|ks| - 1].time < DebounceWindow ==> Debounce(ks, now) == []
  {
    var settles := (i: nat) => Settles(ks, now, i);
    forall i | 0 <= i < |ks| - 1 ensures !settles(i) {
      assert ks[i + 1].time - ks[i].time < DebounceWindow;
    }
    WhereOnlyLast(settles, 0, |ks|);
    assert Settled(ks, now) == Where(settles, 0, |ks|);
  }

  /** Once the box has been quiet for the window, the latest text is the
      last value the debounce emitted. */
  lemma DebounceLatestWins(ks: seq<Keystroke>, now: int)
    requires |ks| > 0 && now - ks[|ks| - 1].time >= DebounceWindow
    ensures var texts := Debounce(ks, now);
            |texts| > 0 && texts[|texts| - 1] == ks[|ks| - 1].text
  {
    var idx := Settled(ks, now);
    assert |ks| - 1 in idx;
    var k :| 0 <= k < |idx| && idx[k] == |ks| - 1;
  }

  /** The worked example of a typing session: edits at 0, 100 and 150 ms
      collapse into the one at 150 ms, and the edit at 500 ms follows. */
  lemma DebounceExample()
    ensures Debounce([Keystroke(0, "c"), Keystroke(100, "ch"), Keystroke(150, "chi"), Keystroke(500, "chic")], 800)
            == ["chi", "chic"]
  {
    var ks := [Keystroke(0, "c"), Keystroke(100, "ch"), Keystroke(150, "chi"), Keystroke(500, "chic")];
    assert !Settles(ks, 800, 0) && !Settles(ks, 800, 1) && Settles(ks, 800, 2) && Settles(ks, 800, 3);
    assert Settled(ks, 800) == [2, 3];
  }

  /** Nothing has been emitted before its window ran out, even when a later
      keystroke is already known to be outside it. */
  lemma DebouncePending()
    ensures Debounce([Keystroke(0, "a"), Keystroke(400, "b")], 100) == []
    ensures Debounce([Keystroke(0, "a"), Keystroke(400, "b")], 300) == ["a"]
  {
    var ks := [Keystroke(0, "a"), Keystroke(400, "b")];
    var early := (i: nat) => Settles(ks, 100, i);
    assert !early(1) && Where(early, 1, 2) == [];
    assert !early(0) && Where(early, 0, 2) == [];
    assert Settled(ks, 100) == Where(early, 0, |ks|);
    var late := (i: nat) => Settles(ks, 300, i);
    assert !late(1) && Where(late, 1, 2) == [];
    assert late(0) && Where(late, 0, 2) == [0];
    assert Settled(ks, 300) == Where(late, 0, |ks|);
  }

  /** No two neighbours are equal. */
  predicate NoRepeats(vs: seq<string>) {
    forall i, j :: 0 <= i < |vs| && 0 <= j < |vs| && j == i + 1 ==> vs[i] != vs[j]
  }

  /** `distinctUntilChanged()` on `vs`, where `prev` is the last value it let
      through before (`None` at subscription): a value passes exactly when it
      differs from the previous value that passed. */
  function DistinctAfter(prev: Option<string>, vs: seq<string>): (out: seq<string>)
    ensures |out| <= |vs|
    ensures NoRepeats(out)
    ensures |out| > 0 && prev.Some? ==> out[0] != prev.value
    ensures |vs| > 0 ==>
              if |out| > 0 then out[|out| - 1] == vs[|vs| - 1] else prev == Some(vs[|vs| - 1])
    decreases |vs|
  {
    if |vs| == 0 then []
    else if prev == Some(vs[0]) then DistinctAfter(prev, vs[1..])
    else [vs[0]] + DistinctAfter(Some(vs[0]), vs[1..])
  }

  /** Nothing is invented and nothing is lost: every value let through was
      in the input, and every input value was let through unless it repeats
      `prev`'s value. */
  lemma {:induction false} DistinctMembers(prev: Option<string>, vs: seq<string>)
    ensures forall k :: 0 <= k < |DistinctAfter(prev, vs)| ==> DistinctAfter(prev, vs)[k] in vs
    ensures forall i :: 0 <= i < |vs| ==> vs[i] in DistinctAfter(prev, vs) || prev == Some(vs[i])
    decreases |vs|
  {
    if |vs| > 0 {
      var rest := vs[1..];
      var out := DistinctAfter(prev, vs);
      if prev == Some(vs[0]) {
        DistinctMembers(prev, rest);
        assert forall i :: 1 <= i < |vs| ==> vs[i] == rest[i - 1];
      } else {
        DistinctMembers(Some(vs[0]), rest);
        var tail := DistinctAfter(Some(vs[0]), rest);
        assert out == [vs[0]] + tail;
        forall i | 0 <= i < |vs| ensures vs[i] in out || prev == Some(vs[i]) {
          if i > 0 {
            assert vs[i] == rest[i - 1];
          }
        }
      }
    }
  }

  /** The value `distinctUntilChanged()` compares the next input with: the
      last value it let through, or `prev` when it has let nothing through. */
  function LastPassed(prev: Option<string>, vs: seq<string>): Option<string> {
    var out := DistinctAfter(prev, vs);
    if |out| > 0 then Some(out[|out| - 1]) else prev
  }

  /** The stream after one more input value: the value is let through
      exactly when it differs from the last value let through so far, and
      the output before it does not change. */
  predicate SnocLaw(prev: Option<string>, vs: seq<string>, v: string) {
    DistinctAfter(prev, vs + [v])
      == DistinctAfter(prev, vs) + (if LastPassed(prev, vs) == Some(v) then [] else [v])
  }

  /** One more input value is let through exactly when it differs from the
      last value let through so far; nothing before it changes. */
  lemma {:induction false} DistinctSnoc(prev: Option<string>, vs: seq<string>, v: string)
    ensures SnocLaw(prev, vs, v)
    decreases |vs|, 1
  {
    if |vs| == 0 {
      assert vs + [v] == [v];
      assert [v][1..] == [];
    } else if prev == Some(vs[0]) {
      DistinctSnocSkip(prev, vs, v);
    } else {
      DistinctSnocKeep(prev, vs, v);
    }
  }

  /** `DistinctSnoc` when the first value repeats `prev` and is dropped. */
  lemma {:induction false} DistinctSnocSkip(prev: Option<string>, vs: seq<string>, v: string)
    requires |vs| > 0 && prev == Some(vs[0])
    ensures SnocLaw(prev, vs, v)
    decreases |vs|, 0
  {
    var ws := vs + [v];
    assert ws[0] == vs[0] && ws[1..] == vs[1..] + [v];
    DistinctSnoc(prev, vs[1..], v);
    assert DistinctAfter(prev, ws) == DistinctAfter(prev, vs[1..] + [v]);
    assert DistinctAfter(prev, vs) == DistinctAfter(prev, vs[1..]);
  }

  /** `DistinctSnoc` when the first value differs from `prev` and is let through. */
  lemma {:induction false} DistinctSnocKeep(prev: Option<string>, vs: seq<string>, v: string)
    requires |vs| > 0 && prev != Some(vs[0])
    ensures SnocLaw(prev, vs, v)
    decreases |vs|, 0
  {
    var ws := vs + [v];
    assert ws[0] == vs[0] && ws[1..] == vs[1..] + [v];
    var q := Some(vs[0]);
    DistinctSnoc(q, vs[1..], v);
    LastPassedKeep(prev, vs);
    var tail := DistinctAfter(q, vs[1..]);
    var x := if LastPassed(prev, vs) == Some(v) then [] else [v];
    assert DistinctAfter(prev, ws) == [vs[0]] + DistinctAfter(q, vs[1..] + [v]);
    assert DistinctAfter(prev, vs) == [vs[0]] + tail;
    assert [vs[0]] + (tail + x) == ([vs[0]] + tail) + x;
  }

  /** When the first value is let through, the last value passed is the one
      the rest of the stream ends on, counting from that first value. */
  lemma LastPassedKeep(prev: Option<string>, vs: seq<string>)
    requires |vs| > 0 && prev != Some(vs[0])
    ensures LastPassed(prev, vs) == LastPassed(Some(vs[0]), vs[1..])
  {
    var tail := DistinctAfter(Some(vs[0]), vs[1..]);
    var out := DistinctAfter(prev, vs);
    assert out == [vs[0]] + tail;
    assert out[|out| - 1] == if |tail| > 0 then tail[|tail| - 1] else vs[0];
  }

  /** A value that returns after a different one passes again. */
  lemma DistinctExample()
    ensures DistinctAfter(None, ["a", "a", "b", "a", "b"]) == ["a", "b", "a", "b"]
  {
    var vs := ["a", "a", "b", "a", "b"];
    assert vs[1..] == ["a", "b", "a", "b"] && vs[2..] == ["b", "a", "b"];
    assert vs[3..] == ["a", "b"] && vs[4..] == ["b"] && vs[5..] == [];
  }

  /** A stream that already has no repeats (and does not repeat `prev`)
      passes through unchanged; in particular the operator is idempotent. */
  lemma {:induction false} DistinctKeepsNoRepeats(prev: Option<string>, vs: seq<string>)
    requires NoRepeats(vs)
    requires |vs| > 0 && prev.Some? ==> vs[0] != prev.value
    ensures DistinctAfter(prev, vs) == vs
    decreases |vs|
  {
    if |vs| > 0 {
      var rest := vs[1..];
      assert NoRepeats(rest) by {
        forall i, j | 0 <= i < |rest| && 0 <= j < |rest| && j == i + 1 ensures rest[i] != rest[j] {
          assert rest[i] == vs[i + 1] && rest[j] == vs[j + 1];
        }
      }
      if |rest| > 0 {
        assert rest[0] == vs[1];
      }
      DistinctKeepsNoRepeats(Some(vs[0]), rest);
      assert DistinctAfter(prev, vs) == [vs[0]] + DistinctAfter(Some(vs[0]), rest);
      assert [vs[0]] + rest == vs;
    }
  }

  lemma DistinctIdempotent(vs: seq<string>)
    ensures DistinctAfter(None, DistinctAfter(None, vs)) == DistinctAfter(None, vs)
  {
    DistinctKeepsNoRepeats(None, DistinctAfter(None, vs));
  }

  /** The search values that reach the component by time `now`. */
  function Dispatched(ks: seq<Keystroke>, now: int): seq<string> {
    DistinctAfter(None, Debounce(ks, now))
  }

  /** Once typing has stopped for the window, the box's final text is the
      last value dispatched, and no value is dispatched twice in a row. */
  lemma DispatchedEndsWithLatest(ks: seq<Keystroke>, now: int)
    requires |ks| > 0 && now - ks[|ks| - 1].time >= DebounceWindow
    ensures var d := Dispatched(ks, now);
            && |d| > 0
            && d[|d| - 1] == ks[|ks| - 1].text
            && NoRepeats(d)
  {
    DebounceLatestWins(ks, now);
  }
}
