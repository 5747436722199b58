/** What the reducer scripts promise about their whole input: lines that
    are blank or skipped change nothing, a line that raises ends the output,
    one line is printed per run of equal adjacent keys, those lines hold the
    folded totals per key when the keys arrive grouped, and reducing the
    printed output again gives it back unchanged. */
module ReducerLaws {
  import opened Wrappers
  import opened Text
  import opened Grouping
  import opened Seqs
  import opened StreamReducer

  /** Scanning two runs of line fates one after the other. */
  lemma {:induction false} ScanKindsAppend<V>(a: seq<LineKind<V>>, b: seq<LineKind<V>>)
    ensures ScanKinds(a + b) ==
      if ScanKinds(a).aborted then ScanKinds(a)
      else Scanned(ScanKinds(a).pairs + ScanKinds(b).pairs, ScanKinds(b).aborted)
  {
    if a == [] {
      assert a + b == b;
    } else {
      var ab := a + b;
      assert ab[1..] == a[1..] + b;
      assert ab[0] == a[0];
      ScanKindsAppend(a[1..], b);
      var rest, restA, sb := ScanKinds(ab[1..]), ScanKinds(a[1..]), ScanKinds(b);
      match a[0]
      case Accepted(k, v) =>
        assert ScanKinds(ab).pairs == [(k, v)] + rest.pairs;
        assert ScanKinds(a).pairs == [(k, v)] + restA.pairs;
        if !restA.aborted {
          AppendAssoc([(k, v)], restA.pairs, sb.pairs);
        }
      case Fatal =>
      case Blank =>
      case Dropped =>
    }
  }

  lemma FatesAppend<V>(f: string -> LineKind<V>, a: seq<string>, b: seq<string>)
    ensures Fates(f, a + b) == Fates(f, a) + Fates(f, b)
  {
    var l, r := Fates(f, a + b), Fates(f, a) + Fates(f, b);
    forall i | 0 <= i < |l|
      ensures l[i] == r[i]
    {
      if i < |a| {
        assert (a + b)[i] == a[i];
      } else {
        assert (a + b)[i] == b[i - |a|];
      }
    }
  }

  lemma ClassifiedAppend<V>(p: Policy<V>, a: seq<string>, b: seq<string>)
    ensures Classified(p, a + b) == Classified(p, a) + Classified(p, b)
  {
    FatesAppend(Classifier(p), a, b);
  }

  /** Scanning two pieces of input one after the other. */
  lemma ScanAppend<V>(p: Policy<V>, a: seq<string>, b: seq<string>)
    ensures Scan(p, a + b) ==
      if Scan(p, a).aborted then Scan(p, a)
      else Scanned(Scan(p, a).pairs + Scan(p, b).pairs, Scan(p, b).aborted)
  {
    ClassifiedAppend(p, a, b);
    ScanKindsAppend(Classified(p, a), Classified(p, b));
  }

  lemma ClassifiedOne<V>(p: Policy<V>, line: string)
    ensures Classified(p, [line]) == [Classify(p, line)]
  {
    assert [line][1..] == [];
  }

  lemma ScanKindsOne<V>(c: LineKind<V>)
    ensures ScanKinds([c]) ==
      match c
      case Accepted(k, v) => Scanned([(k, v)], false)
      case Fatal => Scanned([], true)
      case _ => Scanned([], false)
  {
    assert [c][1..] == [];
  }

  lemma InertKind<V>(a: seq<LineKind<V>>, c: LineKind<V>, b: seq<LineKind<V>>)
    requires c.Blank? || c.Dropped?
    ensures ScanKinds(a + [c] + b) == ScanKinds(a + b)
  {
    ScanKindsOne(c);
    ScanKindsAppend(a + [c], b);
    ScanKindsAppend(a, [c]);
    ScanKindsAppend(a, b);
  }

  /** A blank line, or one whose value the `try` skips, can be removed from
      the input without changing anything that is printed. */
  lemma InertLine<V>(p: Policy<V>, pre: seq<string>, line: string, post: seq<string>)
    requires Classify(p, line).Blank? || Classify(p, line).Dropped?
    ensures Expected(p, pre + [line] + post) == Expected(p, pre + post)
  {
    var a, c, b := Classified(p, pre), Classify(p, line), Classified(p, post);
    assert Classified(p, pre + [line] + post) == a + [c] + b by {
      ClassifiedAppend(p, pre + [line], post);
      ClassifiedAppend(p, pre, [line]);
      ClassifiedOne(p, line);
    }
    assert Classified(p, pre + post) == a + b by {
      ClassifiedAppend(p, pre, post);
    }
    InertKind(a, c, b);
    assert Scan(p, pre + [line] + post) == Scan(p, pre + post);
  }

  /** Input after a line that raises is never read, and the process does
      not reach its end. */
  lemma FatalLine<V>(p: Policy<V>, pre: seq<string>, line: string, post: seq<string>)
    requires Classify(p, line).Fatal?
    ensures Expected(p, pre + [line] + post) == Expected(p, pre + [line])
    ensures !Expected(p, pre + [line]).1
  {
    var a, c, b := Classified(p, pre), Classify(p, line), Classified(p, post);
    assert Classified(p, pre + [line] + post) == a + [c] + b by {
      ClassifiedAppend(p, pre + [line], post);
      ClassifiedAppend(p, pre, [line]);
      ClassifiedOne(p, line);
    }
    assert Classified(p, pre + [line]) == a + [c] by {
      ClassifiedAppend(p, pre, [line]);
      ClassifiedOne(p, line);
    }
    ScanKindsOne(c);
    ScanKindsAppend(a + [c], b);
    ScanKindsAppend(a, [c]);
  }

  /** A fatal second line ends the input, whatever follows it. */
  lemma FatalSecondLine<V>(p: Policy<V>, first: string, line: string, post: seq<string>)
    requires Classify(p, line).Fatal?
    ensures Expected(p, [first, line] + post) == Expected(p, [first, line])
  {
    assert [first, line] + post == [first] + [line] + post;
    assert [first] + [line] == [first, line];
    FatalLine(p, [first], line, post);
  }

  /** A completed run prints one line per maximal run of equal adjacent
      keys among the accepted pairs, and nothing when no pair is accepted. */
  lemma OutputCount<V>(p: Policy<V>, lines: seq<string>)
    ensures Expected(p, lines).1 ==> |Expected(p, lines).0| == RunCount(Scan(p, lines).pairs)
    ensures Scan(p, lines).pairs == [] ==> Expected(p, lines).0 == []
  {
    AggregateLength(p.add, Scan(p, lines).pairs);
  }

  /** With the pairs of every key standing together (what the shuffle
      between mapper and reducer provides), a completed run prints each
      accepted key once, in order of first appearance, with the fold of
      all of that key's values. */
  lemma ExpectedGrouped<V>(p: Policy<V>, lines: seq<string>)
    requires Contiguous(Scan(p, lines).pairs) && !Scan(p, lines).aborted
    ensures var agg := Aggregate(p.add, Scan(p, lines).pairs);
      && Expected(p, lines) == (RenderAll(p, agg), true)
      && GroupedBy(p.add, Scan(p, lines).pairs, agg)
  {
    ContiguousGrouping(p.add, Scan(p, lines).pairs);
  }

  /** What a policy needs for its printed totals to be read back as they
      were: every total satisfying `ok` is rendered as one tab-free token,
      not ending in white space, that parses to the same total. */
  ghost predicate RendersBack<V(!new)>(p: Policy<V>, ok: V -> bool)
  {
    forall v :: ok(v) ==> var t := p.render(v);
      t != [] && !IsSpace(t[|t| - 1]) && '\t' !in t && p.parseValue(t) == Parsed(v)
  }

  /** `ok` holds of every value the policy reads and of every sum of such
      values, so of every total a run can print. */
  ghost predicate ReachableWithin<V(!new)>(p: Policy<V>, ok: V -> bool)
  {
    && (forall raw :: p.parseValue(raw).Parsed? ==> ok(p.parseValue(raw).value))
    && ClosedUnder(p.add, ok)
  }

  /** Every accepted value is one the policy read. */
  lemma {:induction false} ScanKindsWithin<V(!new)>(cs: seq<LineKind<V>>, ok: V -> bool)
    requires forall i :: 0 <= i < |cs| ==> cs[i].Accepted? ==> ok(cs[i].value)
    ensures forall i :: 0 <= i < |ScanKinds(cs).pairs| ==> ok(ScanKinds(cs).pairs[i].1)
  {
    if cs != [] {
      assert forall i :: 0 <= i < |cs| - 1 ==> cs[1..][i] == cs[i + 1];
      ScanKindsWithin(cs[1..], ok);
    }
  }

  /** The values a run accepts satisfy `ok`. */
  lemma ScanWithin<V(!new)>(p: Policy<V>, ok: V -> bool, lines: seq<string>)
    requires ReachableWithin(p, ok)
    ensures forall i :: 0 <= i < |Scan(p, lines).pairs| ==> ok(Scan(p, lines).pairs[i].1)
  {
    var cs := Classified(p, lines);
    forall i | 0 <= i < |cs| && cs[i].Accepted?
      ensures ok(cs[i].value)
    {
      ClassifiedAt(p, lines, i);
      AcceptedRead(p, lines[i]);
    }
    ScanKindsWithin(cs, ok);
  }

  /** An accepted value is what the policy read from the value field. */
  lemma AcceptedRead<V>(p: Policy<V>, line: string)
    requires Classify(p, line).Accepted?
    ensures exists raw :: p.parseValue(raw) == Parsed(Classify(p, line).value)
  {
    assert p.parseValue(Split(Strip(line), '\t')[1]) == Parsed(Classify(p, line).value);
  }

  /** A printed line is accepted again as the same pair. */
  lemma ClassifyOutputLine<V(!new)>(p: Policy<V>, ok: V -> bool, k: string, v: V)
    requires RendersBack(p, ok) && ok(v) && IsKey(k)
    ensures Classify(p, OutputLine(p, k, v)) == Accepted(k, v)
  {
    var t := p.render(v);
    var line := OutputLine(p, k, v);
    assert line == k + ['\t'] + t;
    assert line[0] == k[0] && line[|line| - 1] == t[|t| - 1];
    StripStripped(line);
    SplitPair(k, t, '\t');
  }

  /** The fates of printed lines: the last printed line is accepted as the
      last pair. */
  lemma ClassifiedRenderedLast<V(!new)>(p: Policy<V>, ok: V -> bool, agg: seq<(string, V)>)
    requires RendersBack(p, ok) && agg != [] && IsKey(agg[|agg| - 1].0) && ok(agg[|agg| - 1].1)
    ensures var last := agg[|agg| - 1];
      Classified(p, RenderAll(p, agg)) == Classified(p, RenderAll(p, agg[..|agg| - 1])) + [Accepted(last.0, last.1)]
  {
    var init, last := agg[..|agg| - 1], agg[|agg| - 1];
    var line := OutputLine(p, last.0, last.1);
    assert RenderAll(p, agg) == RenderAll(p, init) + [line];
    ClassifiedAppend(p, RenderAll(p, init), [line]);
    ClassifiedOne(p, line);
    ClassifyOutputLine(p, ok, last.0, last.1);
  }

  /** Scanning printed lines gives back the pairs they were printed from. */
  lemma {:induction false} ScanRendered<V(!new)>(p: Policy<V>, ok: V -> bool, agg: seq<(string, V)>)
    requires RendersBack(p, ok)
    requires forall i :: 0 <= i < |agg| ==> IsKey(agg[i].0) && ok(agg[i].1)
    ensures Scan(p, RenderAll(p, agg)) == Scanned(agg, false)
  {
    if agg != [] {
      var init, last := agg[..|agg| - 1], agg[|agg| - 1];
      assert agg == init + [last];
      var c := Classified(p, RenderAll(p, init));
      ClassifiedRenderedLast(p, ok, agg);
      ScanRendered(p, ok, init);
      ScanKindsOne(Accepted(last.0, last.1));
      ScanKindsAppend(c, [Accepted(last.0, last.1)]);
    }
  }

  /** The runs a process prints: all of them when it reaches the end of
      its input, all but the one in progress when it dies. */
  function PrintedRuns<V>(p: Policy<V>, lines: seq<string>): (r: seq<(string, V)>)
    ensures Expected(p, lines).0 == RenderAll(p, r)
  {
    var s := Scan(p, lines);
    var agg := Aggregate(p.add, s.pairs);
    if s.aborted && agg != [] then agg[..|agg| - 1] else agg
  }

  /** The printed runs have well-formed keys, and no two adjacent ones
      share a key. */
  lemma PrintedRunsWellFormed<V>(p: Policy<V>, lines: seq<string>)
    ensures var r := PrintedRuns(p, lines);
      && (forall i :: 0 <= i < |r| ==> IsKey(r[i].0))
      && KeyChangesEverywhere(r)
  {
    var s := Scan(p, lines);
    var agg := Aggregate(p.add, s.pairs);
    var r := PrintedRuns(p, lines);
    ScanKeys(p, lines);
    AdjacentKeysDiffer(p.add, s.pairs);
    AggregateKeys(p.add, s.pairs);
    forall i | 0 <= i < |r|
      ensures IsKey(r[i].0)
    {
      assert r[i] == agg[i];
      var j :| 0 <= j < |s.pairs| && Keys(s.pairs)[j] == agg[i].0;
    }
    forall i | 0 < i < |r|
      ensures r[i - 1].0 != r[i].0
    {
      assert r[i - 1] == agg[i - 1] && r[i] == agg[i];
    }
  }

  /** Every printed total satisfies `ok` when every read value and every
      sum of them does. */
  lemma PrintedRunsWithin<V(!new)>(p: Policy<V>, ok: V -> bool, lines: seq<string>)
    requires ReachableWithin(p, ok)
    ensures var r := PrintedRuns(p, lines); forall i :: 0 <= i < |r| ==> ok(r[i].1)
  {
    var s := Scan(p, lines);
    var agg := Aggregate(p.add, s.pairs);
    ScanWithin(p, ok, lines);
    AggregateWithin(p.add, ok, s.pairs);
    var r := PrintedRuns(p, lines);
    assert forall i :: 0 <= i < |r| ==> r[i] == agg[i];
  }

  /** The reducer is idempotent: reducing its own output, whether the run
      completed or died part way, prints that output again and completes,
      provided every total a run can reach renders back. */
  lemma ReduceTwice<V(!new)>(p: Policy<V>, ok: V -> bool, lines: seq<string>)
    requires RendersBack(p, ok) && ReachableWithin(p, ok)
    ensures var out := Expected(p, lines).0; Expected(p, out) == (out, true)
  {
    var r := PrintedRuns(p, lines);
    PrintedRunsWellFormed(p, lines);
    PrintedRunsWithin(p, ok, lines);
    ScanRendered(p, ok, r);
    AggregateOfChanging(p.add, r);
  }
}
