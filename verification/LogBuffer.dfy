/** The rolling tail of the service log: consecutive repeats are folded, and old entries fall off the front. */
module LogBuffer {

  datatype Entry = Entry(text: string, count: nat)

  /** One more line: the last entry again, or a new one. */
  function Fold(entries: seq<Entry>, s: string): seq<Entry> {
    var m := |entries| - 1;
    if entries != [] && entries[m].text == s then entries[..m] + [Entry(s, entries[m].count + 1)]
    else entries + [Entry(s, 1)]
  }

  /** The run-length encoding of a history of lines. */
  function Folded(history: seq<string>): seq<Entry> {
    if history == [] then [] else Fold(Folded(history[..|history| - 1]), history[|history| - 1])
  }

  /** Runs that are never empty and never next to a run of the same line. */
  predicate MaximalRuns(entries: seq<Entry>) {
    && (forall k :: 0 <= k < |entries| ==> entries[k].count >= 1)
    && (forall k :: 0 < k < |entries| ==> entries[k].text != entries[k - 1].text)
  }

  function Last<T>(s: seq<T>, max: nat): seq<T> {
    if |s| <= max then s else s[|s| - max..]
  }

  function Copies(text: string, count: nat): seq<string> {
    seq(count, _ => text)
  }

  /** The lines some entries stand for. */
  function Unfolded(entries: seq<Entry>): seq<string> {
    if entries == [] then []
    else
      var n := |entries| - 1;
      Unfolded(entries[..n]) + Copies(entries[n].text, entries[n].count)
  }

  class Buffer {
    var buf: seq<Entry>
    const max: nat
    ghost var history: seq<string>

    ghost predicate Valid()
      reads this
    {
      buf == Last(Folded(history), max)
    }

    constructor (max: nat)
      ensures Valid() && history == [] && this.max == max
    {
      buf, history := [], [];
      this.max := max;
    }

    method Push(s: string)
      requires Valid()
      modifies this
      ensures Valid() && history == old(history) + [s]
    {
      hide Folded, Fold, Last;
      KeptLength(Folded(history), max);
      FoldedOneMore(history, s);
      FoldThenLast(Folded(history), max, s);
      FoldThenCut(buf, max, s);
      history := history + [s];
      if |buf| > 0 && buf[|buf| - 1].text == s {
        buf := buf[..|buf| - 1] + [Entry(s, buf[|buf| - 1].count + 1)];
        return;
      }
      buf := buf + [Entry(s, 1)];
      if |buf| > max {
        buf := buf[|buf| - max..];
      }
    }

    /** What the Logs page shows: each line, with a count when it was repeated. */
    method Snapshot(itoa: nat -> string) returns (lines: seq<string>)
      requires Valid()
      ensures lines == Shown(Last(Folded(history), max), itoa)
    {
      hide Folded, Last, Line;
      lines := [];
      for i := 0 to |buf|
        invariant lines == Shown(buf[..i], itoa)
      {
        assert buf[..i + 1][..i] == buf[..i];
        lines := lines + [Line(buf[i], itoa)];
      }
      assert buf[..|buf|] == buf;
    }
  }

  function Line(e: Entry, itoa: nat -> string): string {
    if e.count > 1 then e.text + "  (\U{D7}" + itoa(e.count) + ")" else e.text
  }

  function Shown(entries: seq<Entry>, itoa: nat -> string): seq<string> {
    seq(|entries|, k requires 0 <= k < |entries| => Line(entries[k], itoa))
  }

  lemma FoldedOneMore(history: seq<string>, s: string)
    ensures Folded(history + [s]) == Fold(Folded(history), s)
  {
    assert (history + [s])[..|history|] == history;
  }

  /** Cutting first or folding first makes no difference. */
  lemma FoldThenLast(entries: seq<Entry>, max: nat, s: string)
    ensures Last(Fold(entries, s), max) == Last(Fold(Last(entries, max), s), max)
  {
    hide Fold;
    FoldLength(entries, s);
    FoldLength(Last(entries, max), s);
    if |entries| > max {
      var cut := |entries| - max;
      var fallen, buf := entries[..cut], entries[cut..];
      assert entries == fallen + buf;
      if max > 0 {
        FoldBehind(fallen, buf, s);
        LastOfConcat(fallen, Fold(buf, s), max);
      }
    }
  }

  lemma FoldLength(entries: seq<Entry>, s: string)
    ensures |entries| <= |Fold(entries, s)| <= |entries| + 1
  {
  }

  lemma FoldBehind(fallen: seq<Entry>, buf: seq<Entry>, s: string)
    requires buf != []
    ensures Fold(fallen + buf, s) == fallen + Fold(buf, s)
  {
    var all := fallen + buf;
    assert all[|all| - 1] == buf[|buf| - 1];
    assert all[..|all| - 1] == fallen + buf[..|buf| - 1];
  }

  lemma KeptLength(entries: seq<Entry>, max: nat)
    ensures |Last(entries, max)| <= max
  {
  }

  /** Folding and cutting as the buffer does it. */
  lemma FoldThenCut(buf: seq<Entry>, max: nat, s: string)
    requires |buf| <= max
    ensures var m := |buf| - 1;
            Last(Fold(buf, s), max) ==
              if buf != [] && buf[m].text == s then buf[..m] + [Entry(s, buf[m].count + 1)]
              else if |buf| + 1 > max then (buf + [Entry(s, 1)])[|buf| + 1 - max..]
              else buf + [Entry(s, 1)]
  {
  }

  lemma LastOfConcat(fallen: seq<Entry>, kept: seq<Entry>, max: nat)
    requires |kept| >= max
    ensures Last(fallen + kept, max) == Last(kept, max)
  {
  }

  lemma {:induction false} FoldedHasMaximalRuns(history: seq<string>)
    ensures MaximalRuns(Folded(history))
  {
    hide MaximalRuns, Fold;
    if history == [] {
      NoRuns();
    } else {
      FoldedHasMaximalRuns(history[..|history| - 1]);
      FoldKeepsRuns(Folded(history[..|history| - 1]), history[|history| - 1]);
    }
  }

  lemma NoRuns()
    ensures MaximalRuns([])
  {
  }

  lemma FoldKeepsRuns(entries: seq<Entry>, s: string)
    requires MaximalRuns(entries)
    ensures MaximalRuns(Fold(entries, s))
  {
  }

  /** Folding loses nothing. */
  lemma {:induction false} UnfoldedFolded(history: seq<string>)
    ensures Unfolded(Folded(history)) == history
  {
    hide Fold;
    if history != [] {
      var n := |history| - 1;
      UnfoldedFolded(history[..n]);
      assert history == history[..n] + [history[n]];
      UnfoldedFold(Folded(history[..n]), history[n]);
    }
  }

  lemma UnfoldedFold(entries: seq<Entry>, s: string)
    ensures Unfolded(Fold(entries, s)) == Unfolded(entries) + [s]
  {
    var m := |entries| - 1;
    if entries != [] && entries[m].text == s {
      UnfoldedOneMore(entries[..m], Entry(s, entries[m].count + 1));
      assert Copies(s, entries[m].count + 1) == Copies(s, entries[m].count) + [s];
    } else {
      UnfoldedOneMore(entries, Entry(s, 1));
      assert Copies(s, 1) == [s];
    }
  }

  lemma UnfoldedOneMore(entries: seq<Entry>, e: Entry)
    ensures Unfolded(entries + [e]) == Unfolded(entries) + Copies(e.text, e.count)
  {
    assert (entries + [e])[..|entries|] == entries;
  }

  lemma {:induction false} UnfoldedConcat(a: seq<Entry>, b: seq<Entry>)
    ensures Unfolded(a + b) == Unfolded(a) + Unfolded(b)
  {
    if b == [] {
      assert a + b == a;
    } else {
      var n := |b| - 1;
      assert (a + b)[..|a| + n] == a + b[..n];
      UnfoldedConcat(a, b[..n]);
    }
  }

  /** Whatever was pushed, the buffer stands for the most recent lines, in order: a suffix of the history. */
  lemma BufferIsSuffix(history: seq<string>, max: nat)
    ensures var kept := Unfolded(Last(Folded(history), max));
            |kept| <= |history| && kept == history[|history| - |kept|..]
    ensures |Folded(history)| <= max ==> Unfolded(Last(Folded(history), max)) == history
    ensures |Folded(history)| > max ==> |Last(Folded(history), max)| == max
  {
    var entries := Folded(history);
    UnfoldedFolded(history);
    if |entries| > max {
      var cut := |entries| - max;
      assert entries == entries[..cut] + entries[cut..];
      UnfoldedConcat(entries[..cut], entries[cut..]);
    }
  }

  /** However often a line is repeated, it takes up one entry: a flood of it drives out nothing else. */
  lemma {:induction false} FloodTakesOneEntry(history: seq<string>, s: string, n: nat)
    ensures var entries := Folded(history + Copies(s, n + 1));
            && entries != [] && entries[|entries| - 1].text == s
            && |Folded(history)| <= |entries| <= |Folded(history)| + 1
            && (history == [] || history[|history| - 1] != s ==>
                  entries == Folded(history) + [Entry(s, n + 1)])
  {
    hide Fold, Folded;
    var before := history + Copies(s, n);
    assert history + Copies(s, n + 1) == before + [s];
    FoldedOneMore(before, s);
    if n == 0 {
      assert before == history;
      EndsWithLast(history);
      FoldNew(Folded(history), s);
    } else {
      FloodTakesOneEntry(history, s, n - 1);
      FoldAgain(Folded(before), s);
    }
  }

  lemma FoldNew(entries: seq<Entry>, s: string)
    ensures var after := Fold(entries, s);
            && after != [] && after[|after| - 1].text == s && |entries| <= |after| <= |entries| + 1
            && (entries == [] || entries[|entries| - 1].text != s ==> after == entries + [Entry(s, 1)])
  {
  }

  lemma FoldAgain(entries: seq<Entry>, s: string)
    requires entries != [] && entries[|entries| - 1].text == s
    ensures var after, m := Fold(entries, s), |entries| - 1;
            |after| == |entries| && after == entries[..m] + [Entry(s, entries[m].count + 1)]
  {
  }

  lemma {:induction false} EndsWithLast(history: seq<string>)
    ensures var entries := Folded(history);
            (entries == [] <==> history == []) &&
            (history != [] ==> entries[|entries| - 1].text == history[|history| - 1])
  {
    if history != [] {
      EndsWithLast(history[..|history| - 1]);
    }
  }

  /** A line that was not repeated is shown as it is, and one that was with how often it came. */
  lemma LineSays(text: string, n: nat, itoa: nat -> string)
    ensures Line(Entry(text, 1), itoa) == text
    ensures Line(Entry(text, n + 2), itoa) == text + ("  (\U{D7}" + (itoa(n + 2) + ")"))
  {
    assert text + "  (\U{D7}" + itoa(n + 2) + ")" == text + ("  (\U{D7}" + (itoa(n + 2) + ")"));
  }

  /** A page: repeats that follow one another are counted, and a later one is a line of its own. */
  lemma SamplePage(itoa: nat -> string)
    ensures Shown(Last(Folded(["a", "dup", "dup", "dup", "b", "dup"]), 10), itoa)
         == ["a", "dup  (\U{D7}" + itoa(3) + ")", "b", "dup"]
  {
    hide Folded, Fold, Shown, Line, Copies;
    var one, two, three := ["a"], ["a", "dup", "dup", "dup"], ["a", "dup", "dup", "dup", "b"];
    SampleCopies();
    FoldedNone();
    FloodTakesOneEntry([], "a", 0);
    assert Folded(one) == [Entry("a", 1)] by { assert [] + ["a"] == one; }
    FloodTakesOneEntry(one, "dup", 2);
    assert Folded(two) == [Entry("a", 1), Entry("dup", 3)] by { assert one + ["dup", "dup", "dup"] == two; }
    FloodTakesOneEntry(two, "b", 0);
    assert Folded(three) == [Entry("a", 1), Entry("dup", 3), Entry("b", 1)] by { assert two + ["b"] == three; }
    FloodTakesOneEntry(three, "dup", 0);
    var page := [Entry("a", 1), Entry("dup", 3), Entry("b", 1), Entry("dup", 1)];
    assert Folded(["a", "dup", "dup", "dup", "b", "dup"]) == page by {
      assert three + ["dup"] == ["a", "dup", "dup", "dup", "b", "dup"];
      assert page == Folded(three) + [Entry("dup", 1)];
    }
    SampleLines(itoa);
  }

  lemma SampleCopies()
    ensures Copies("a", 1) == ["a"] && Copies("b", 1) == ["b"] && Copies("dup", 1) == ["dup"]
    ensures Copies("dup", 3) == ["dup", "dup", "dup"]
  {
  }

  lemma FoldedNone()
    ensures Folded([]) == []
  {
  }

  lemma SampleLines(itoa: nat -> string)
    ensures Shown([Entry("a", 1), Entry("dup", 3), Entry("b", 1), Entry("dup", 1)], itoa)
         == ["a", "dup  (\U{D7}" + itoa(3) + ")", "b", "dup"]
  {
    assert "dup" + "  (\U{D7}" == "dup  (\U{D7}";
    assert Line(Entry("dup", 3), itoa) == "dup  (\U{D7}" + itoa(3) + ")";
  }
}
