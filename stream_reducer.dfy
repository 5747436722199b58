/** The streaming reducer shared by the five reducer scripts. Each script
    keeps the current key and its running total in module variables and, for
    every line of standard input: strips it and skips it when blank, unpacks
    it into key and value at the tab (outside any `try`, so a line with the
    wrong number of tabs ends the process), parses the value, adds it to the
    total when the key is the current one, and otherwise prints the previous
    key's total and starts a new total with this value. At end of input it
    prints the last key. The scripts differ only in their `Policy`. */
module StreamReducer {
  import opened Wrappers
  import opened Text
  import opened Grouping
  import opened Seqs

  /** What a policy makes of the value field: a number, a line to skip (the
      `except: continue` of the counting and fare reducers), or an error
      that escapes and ends the process. */
  datatype ValueParse<V> = Parsed(value: V) | Skipped | Invalid

  /** How one script reads, adds and prints its values; `init` is the value
      its total variable holds before the first pair. */
  datatype Policy<!V> = Policy(
    parseValue: string -> ValueParse<V>,
    add: (V, V) -> V,
    init: V,
    render: V -> string)

  /** What one input line means to the reducer. */
  datatype LineKind<V> = Blank | Accepted(key: string, value: V) | Dropped | Fatal

  /** What an accepted key looks like: not empty, not starting with white
      space (the line was stripped) and without a tab (the line split into
      exactly two fields). */
  predicate IsKey(k: string)
  {
    k != "" && !IsSpace(k[0]) && '\t' !in k
  }

  /** The line's fate, decided before any state is touched. An accepted key
      is never empty, because the line was stripped and so cannot start
      with the tab; the truthiness test on the current key therefore only
      tells whether a pair has been accepted yet. */
  function Classify<V>(p: Policy<V>, line: string): LineKind<V>
  {
    var s := Strip(line);
    if s == "" then Blank
    else
      var fields := Split(s, '\t');
      if |fields| != 2 then Fatal
      else
        match p.parseValue(fields[1])
        case Parsed(v) => Accepted(fields[0], v)
        case Skipped => Dropped
        case Invalid => Fatal
  }

  /** An accepted key is a key: the stripped line cannot start with the
      tab, so the key is not empty. */
  lemma ClassifyKey<V>(p: Policy<V>, line: string)
    ensures Classify(p, line).Accepted? ==> IsKey(Classify(p, line).key)
  {
    var s := Strip(line);
    if s != "" && |Split(s, '\t')| == 2 {
      StrippedKey(s);
    }
  }

  /** The text before the only tab of a stripped line is a key. */
  lemma StrippedKey(s: string)
    requires IsStripped(s) && s != "" && |Split(s, '\t')| == 2
    ensures IsKey(Split(s, '\t')[0])
  {
    var fields := Split(s, '\t');
    SplitPiecesFree(s, '\t');
    JoinSplit(s, '\t');
    assert fields == [fields[0], fields[1]];
    JoinPair(fields[0], fields[1], '\t');
    assert s[0] == if fields[0] == "" then '\t' else fields[0][0];
  }

  /** The output line for a finished key. */
  function OutputLine<V>(p: Policy<V>, key: string, total: V): string
  {
    key + "\t" + p.render(total)
  }

  function RenderAll<V>(p: Policy<V>, agg: seq<(string, V)>): (out: seq<string>)
    ensures |out| == |agg|
    ensures forall i :: 0 <= i < |agg| ==> out[i] == OutputLine(p, agg[i].0, agg[i].1)
  {
    if agg == [] then [] else RenderAll(p, agg[..|agg| - 1]) + [OutputLine(p, agg[|agg| - 1].0, agg[|agg| - 1].1)]
  }

  /** The pairs accepted from `lines`, up to the first fatal line, and
      whether there was one. */
  datatype Scanned<V> = Scanned(pairs: seq<(string, V)>, aborted: bool)

  /** Fates whose accepted keys all look like keys. */
  predicate KeysWellFormed<V>(cs: seq<LineKind<V>>)
  {
    forall i :: 0 <= i < |cs| ==> cs[i].Accepted? ==> IsKey(cs[i].key)
  }

  /** Exactly the lines that are all white space are blank. */
  lemma ClassifyBlank<V>(p: Policy<V>, line: string)
    ensures Classify(p, line).Blank? <==> AllSpace(line)
  {
    StripEmpty(line);
  }

  /** Every line's fate, in order. */
  function Classified<V>(p: Policy<V>, lines: seq<string>): (cs: seq<LineKind<V>>)
    ensures |cs| == |lines|
  {
    Fates(Classifier(p), lines)
  }

  function Classifier<V>(p: Policy<V>): string -> LineKind<V>
  {
    line => Classify(p, line)
  }

  /** The fate `f` gives each of `lines`, in order. */
  function Fates<V>(f: string -> LineKind<V>, lines: seq<string>): (cs: seq<LineKind<V>>)
    ensures |cs| == |lines|
  {
    seq(|lines|, i requires 0 <= i < |lines| => f(lines[i]))
  }

  lemma ClassifiedAt<V>(p: Policy<V>, lines: seq<string>, i: nat)
    requires i < |lines|
    ensures Classified(p, lines)[i] == Classify(p, lines[i])
  {
    assert Fates(Classifier(p), lines)[i] == Classifier(p)(lines[i]);
  }

  /** The pairs accepted before the first fatal line, and whether there was one. */
  function ScanKinds<V>(cs: seq<LineKind<V>>): Scanned<V>
  {
    if cs == [] then Scanned([], false)
    else
      var rest := ScanKinds(cs[1..]);
      match cs[0]
      case Accepted(k, v) => Scanned([(k, v)] + rest.pairs, rest.aborted)
      case Fatal => Scanned([], true)
      case _ => rest
  }

  /** Only accepted keys are collected. */
  lemma {:induction false} ScanKindsKeys<V>(cs: seq<LineKind<V>>)
    requires KeysWellFormed(cs)
    ensures forall i :: 0 <= i < |ScanKinds(cs).pairs| ==> IsKey(ScanKinds(cs).pairs[i].0)
  {
    if cs != [] {
      assert KeysWellFormed(cs[1..]) by {
        assert forall i :: 0 <= i < |cs| - 1 ==> cs[1..][i] == cs[i + 1];
      }
      ScanKindsKeys(cs[1..]);
    }
  }

  function Scan<V>(p: Policy<V>, lines: seq<string>): Scanned<V>
  {
    ScanKinds(Classified(p, lines))
  }

  /** Every line's fate accepts only keys. */
  lemma ClassifiedKeys<V>(p: Policy<V>, lines: seq<string>)
    ensures KeysWellFormed(Classified(p, lines))
  {
    var cs := Classified(p, lines);
    forall i | 0 <= i < |cs|
      ensures cs[i].Accepted? ==> IsKey(cs[i].key)
    {
      ClassifiedAt(p, lines, i);
      ClassifyKey(p, lines[i]);
    }
  }

  /** Every accepted key is a key. */
  lemma ScanKeys<V>(p: Policy<V>, lines: seq<string>)
    ensures forall i :: 0 <= i < |Scan(p, lines).pairs| ==> IsKey(Scan(p, lines).pairs[i].0)
  {
    ClassifiedKeys(p, lines);
    ScanKindsKeys(Classified(p, lines));
  }

  /** What a run prints, and whether it reaches the end of its input: one
      line per maximal run of equal adjacent keys among the accepted pairs;
      when a fatal line stops the process, the run in progress is never
      printed. */
  function Expected<V>(p: Policy<V>, lines: seq<string>): (seq<string>, bool)
  {
    var s := Scan(p, lines);
    var agg := Aggregate(p.add, s.pairs);
    if s.aborted then (RenderAll(p, if agg == [] then [] else agg[..|agg| - 1]), false)
    else (RenderAll(p, agg), true)
  }

  lemma RenderAllAppend<V>(p: Policy<V>, agg: seq<(string, V)>, x: (string, V))
    ensures RenderAll(p, agg + [x]) == RenderAll(p, agg) + [OutputLine(p, x.0, x.1)]
  {
    assert (agg + [x])[..|agg|] == agg;
  }

  /** The accepted pairs, if any were accepted. */
  function Admitted<V>(c: LineKind<V>): seq<(string, V)>
  {
    if c.Accepted? then [(c.key, c.value)] else []
  }

  /** The reducer state `current`, `total`, `out` for the aggregate `agg`
      of the pairs seen so far: every finished run has been printed, and
      the last run is the current key with its total. */
  ghost predicate Summary<V>(p: Policy<V>, agg: seq<(string, V)>, current: Option<string>, total: V, out: seq<string>)
  {
    if agg == [] then current == None && out == []
    else
      && current == Some(agg[|agg| - 1].0)
      && total == agg[|agg| - 1].1
      && out == RenderAll(p, agg[..|agg| - 1])
  }

  ghost predicate Summarises<V>(p: Policy<V>, accepted: seq<(string, V)>, current: Option<string>, total: V, out: seq<string>)
  {
    && NonEmptyKeys(accepted)
    && Summary(p, Aggregate(p.add, accepted), current, total, out)
  }

  lemma CurrentKeyNonEmpty<V>(p: Policy<V>, accepted: seq<(string, V)>, current: Option<string>, total: V, out: seq<string>)
    requires Summarises(p, accepted, current, total, out)
    ensures current.Some? ==> current.value != ""
  {
    if current.Some? {
      LastKey(p.add, accepted);
    }
  }

  /** No accepted key is empty. */
  predicate NonEmptyKeys<V>(ps: seq<(string, V)>)
  {
    forall i :: 0 <= i < |ps| ==> ps[i].0 != ""
  }

  lemma NonEmptyKeysAppend<V>(ps: seq<(string, V)>, k: string, v: V)
    requires NonEmptyKeys(ps) && k != ""
    ensures NonEmptyKeys(ps + [(k, v)])
  {
    var a := ps + [(k, v)];
    forall i | 0 <= i < |a|
      ensures a[i].0 != ""
    {
      if i < |ps| {
        assert a[i] == ps[i];
      }
    }
  }

  /** Accepting one more pair moves the aggregate one `Extend` step. */
  lemma SummarisesAppend<V>(p: Policy<V>, accepted: seq<(string, V)>, k: string, v: V, current: Option<string>, total: V, out: seq<string>)
    requires NonEmptyKeys(accepted) && k != ""
    requires Summary(p, Extend(p.add, Aggregate(p.add, accepted), k, v), current, total, out)
    ensures Summarises(p, accepted + [(k, v)], current, total, out)
  {
    NonEmptyKeysAppend(accepted, k, v);
    AggregateAppend(p.add, accepted, k, v);
  }

  /** A pair with the current key only grows the total. */
  lemma SummarySameKey<V>(p: Policy<V>, agg: seq<(string, V)>, k: string, total: V, out: seq<string>, v: V)
    requires Summary(p, agg, Some(k), total, out)
    ensures Summary(p, Extend(p.add, agg, k, v), Some(k), p.add(total, v), out)
  {
    var agg' := Extend(p.add, agg, k, v);
    assert agg'[..|agg'| - 1] == agg[..|agg| - 1];
  }

  /** A pair with another key prints the current total and starts afresh. */
  lemma SummaryNewKey<V>(p: Policy<V>, agg: seq<(string, V)>, c: string, total: V, out: seq<string>, k: string, v: V)
    requires Summary(p, agg, Some(c), total, out) && c != k
    ensures Summary(p, Extend(p.add, agg, k, v), Some(k), v, out + [OutputLine(p, c, total)])
  {
    var agg' := Extend(p.add, agg, k, v);
    assert agg' == agg + [(k, v)];
    assert agg'[..|agg'| - 1] == agg;
    assert agg == agg[..|agg| - 1] + [agg[|agg| - 1]];
    RenderAllAppend(p, agg[..|agg| - 1], agg[|agg| - 1]);
  }

  /** The first pair opens the first run. */
  lemma SummaryFirst<V>(p: Policy<V>, agg: seq<(string, V)>, total: V, out: seq<string>, k: string, v: V)
    requires Summary(p, agg, None, total, out)
    ensures Summary(p, Extend(p.add, agg, k, v), Some(k), v, out)
  {
    assert Extend(p.add, agg, k, v) == [(k, v)];
  }

  /** At end of input the current run is printed too. */
  lemma SummaryFinal<V>(p: Policy<V>, agg: seq<(string, V)>, current: Option<string>, total: V, out: seq<string>)
    requires Summary(p, agg, current, total, out)
    ensures current.Some? ==> out + [OutputLine(p, current.value, total)] == RenderAll(p, agg)
    ensures current.None? ==> out == RenderAll(p, agg)
  {
    if agg != [] {
      assert agg == agg[..|agg| - 1] + [agg[|agg| - 1]];
      RenderAllAppend(p, agg[..|agg| - 1], agg[|agg| - 1]);
    }
  }

  /** The invariant of `Run` after `i` lines: the pairs accepted so far,
      followed by what the rest of the input accepts, are what the whole
      input accepts. */
  ghost predicate ScanFrom<V>(p: Policy<V>, lines: seq<string>, i: nat, accepted: seq<(string, V)>)
    requires i <= |lines|
  {
    var rest := ScanKinds(Classified(p, lines)[i..]);
    Scan(p, lines) == Scanned(accepted + rest.pairs, rest.aborted)
  }

  lemma ScanFromStart<V>(p: Policy<V>, lines: seq<string>)
    ensures ScanFrom(p, lines, 0, [])
  {
    var cs := Classified(p, lines);
    assert cs[0..] == cs;
  }

  /** The invariant survives a line that is not fatal. */
  lemma ScanFromStep<V>(p: Policy<V>, lines: seq<string>, i: nat, before: seq<(string, V)>, after: seq<(string, V)>)
    requires i < |lines| && ScanFrom(p, lines, i, before)
    requires !Classify(p, lines[i]).Fatal? && after == before + Admitted(Classify(p, lines[i]))
    ensures ScanFrom(p, lines, i + 1, after)
  {
    ClassifiedAt(p, lines, i);
    ScanAdvance(Classified(p, lines), i, before, after);
  }

  /** One step of the invariant, on the lines' fates. */
  lemma ScanAdvance<V>(cs: seq<LineKind<V>>, i: nat, before: seq<(string, V)>, after: seq<(string, V)>)
    requires i < |cs| && !cs[i].Fatal?
    requires after == before + Admitted(cs[i])
    ensures before + ScanKinds(cs[i..]).pairs == after + ScanKinds(cs[i + 1..]).pairs
    ensures ScanKinds(cs[i..]).aborted == ScanKinds(cs[i + 1..]).aborted
  {
    assert cs[i..][1..] == cs[i + 1..];
    AppendAssoc(before, Admitted(cs[i]), ScanKinds(cs[i + 1..]).pairs);
  }

  /** A fatal line leaves only the pairs accepted before it. */
  lemma ScanFromFatal<V>(p: Policy<V>, lines: seq<string>, i: nat, accepted: seq<(string, V)>)
    requires i < |lines| && ScanFrom(p, lines, i, accepted) && Classify(p, lines[i]).Fatal?
    ensures Scan(p, lines) == Scanned(accepted, true)
  {
    ClassifiedAt(p, lines, i);
    ScanKindsFatal(Classified(p, lines), i, accepted);
  }

  /** Scanning stops at a fatal line. */
  lemma ScanKindsFatal<V>(cs: seq<LineKind<V>>, i: nat, accepted: seq<(string, V)>)
    requires i < |cs| && cs[i].Fatal?
    ensures ScanKinds(cs[i..]) == Scanned([], true)
    ensures accepted + ScanKinds(cs[i..]).pairs == accepted
  {
    assert accepted + [] == accepted;
  }

  /** At the end of input every accepted pair has been seen. */
  lemma ScanFromEnd<V>(p: Policy<V>, lines: seq<string>, accepted: seq<(string, V)>)
    requires ScanFrom(p, lines, |lines|, accepted)
    ensures Scan(p, lines) == Scanned(accepted, false)
  {
    var cs := Classified(p, lines);
    assert cs[|lines|..] == [];
    assert accepted + [] == accepted;
  }

  /** A process that dies at line `i` prints exactly what its state had
      printed. */
  lemma DiesAt<V>(p: Policy<V>, lines: seq<string>, i: nat, accepted: seq<(string, V)>, current: Option<string>, total: V, out: seq<string>)
    requires i < |lines| && ScanFrom(p, lines, i, accepted) && Classify(p, lines[i]).Fatal?
    requires Summarises(p, accepted, current, total, out)
    ensures Expected(p, lines) == (out, false)
  {
    ScanFromFatal(p, lines, i, accepted);
  }

  /** A process that reaches the end of input prints every run. */
  lemma Completes<V>(p: Policy<V>, lines: seq<string>, accepted: seq<(string, V)>, out: seq<string>)
    requires ScanFrom(p, lines, |lines|, accepted)
    requires out == RenderAll(p, Aggregate(p.add, accepted))
    ensures Expected(p, lines) == (out, true)
  {
    ScanFromEnd(p, lines, accepted);
  }

  /** The state `(current, total, out)` after the script takes the pair
      `(key, v)`: the same key only grows the total; another key prints the
      current total when the current key is truthy, and restarts the total
      at `v`. */
  function Absorb<V>(p: Policy<V>, current: Option<string>, total: V, out: seq<string>, key: string, v: V): (Option<string>, V, seq<string>)
  {
    if current == Some(key) then (current, p.add(total, v), out)
    else (Some(key), v, if current.Some? && current.value != "" then out + [OutputLine(p, current.value, total)] else out)
  }

  /** Taking a pair keeps the state a summary of the accepted pairs: what
      was printed plus the current run is their aggregate. */
  lemma AbsorbSummarises<V>(p: Policy<V>, accepted: seq<(string, V)>, current: Option<string>, total: V, out: seq<string>, key: string, v: V)
    requires Summarises(p, accepted, current, total, out) && key != ""
    ensures var next := Absorb(p, current, total, out, key, v);
      Summarises(p, accepted + [(key, v)], next.0, next.1, next.2)
  {
    CurrentKeyNonEmpty(p, accepted, current, total, out);
    var agg := Aggregate(p.add, accepted);
    var next := Absorb(p, current, total, out, key, v);
    if current == Some(key) {
      SummarySameKey(p, agg, key, total, out, v);
    } else if current.Some? {
      SummaryNewKey(p, agg, current.value, total, out, key, v);
    } else {
      SummaryFirst(p, agg, total, out, key, v);
    }
    SummarisesAppend(p, accepted, key, v, next.0, next.1, next.2);
  }

  /** The script's module state: the current key, its running total and
      what has been printed so far. */
  class Reducer<V> {
    const policy: Policy<V>
    var current: Option<string>
    var total: V
    var out: seq<string>
    /** The pairs accepted so far. */
    ghost var accepted: seq<(string, V)>

    ghost predicate Valid()
      reads this
    {
      Summarises(policy, accepted, current, total, out)
    }

    constructor (p: Policy<V>)
      ensures Valid()
      ensures policy == p && accepted == [] && current == None && total == p.init && out == []
    {
      policy := p;
      current := None;
      total := p.init;
      out := [];
      accepted := [];
    }

    /** One iteration of the loop over standard input. `ok` is false when
        the line raises outside the `try`; the state is then untouched. */
    method Feed(line: string) returns (ok: bool)
      requires Valid()
      modifies this
      ensures Valid()
      ensures ok == !Classify(policy, line).Fatal?
      ensures accepted == old(accepted) + Admitted(Classify(policy, line))
      ensures match Classify(policy, line)
        case Accepted(k, v) => (current, total, out) == Absorb(policy, old(current), old(total), old(out), k, v)
        case _ => current == old(current) && total == old(total) && out == old(out)
    {
      match Classify(policy, line)
      case Blank =>
        ok := true;
      case Dropped =>
        ok := true;
      case Fatal =>
        ok := false;
      case Accepted(key, v) =>
        ClassifyKey(policy, line);
        Accept(key, v);
        ok := true;
    }

    /** The body of the `try` once the value has parsed: add to the current
        total, or print it and start a new one. */
    method Accept(key: string, v: V)
      requires Valid() && key != ""
      modifies this
      ensures Valid()
      ensures accepted == old(accepted) + [(key, v)]
      ensures (current, total, out) == Absorb(policy, old(current), old(total), old(out), key, v)
    {
      AbsorbSummarises(policy, accepted, current, total, out, key, v);
      if current == Some(key) {
        total := policy.add(total, v);
      } else {
        if current.Some? && current.value != "" {
          out := out + [OutputLine(policy, current.value, total)];
        }
        current := Some(key);
        total := v;
      }
      accepted := accepted + [(key, v)];
    }

    /** End of input: print the last key, if any pair was accepted. */
    method Finish()
      requires Valid()
      modifies this`out
      ensures out == RenderAll(policy, Aggregate(policy.add, accepted))
    {
      CurrentKeyNonEmpty(policy, accepted, current, total, out);
      SummaryFinal(policy, Aggregate(policy.add, accepted), current, total, out);
      if current.Some? && current.value != "" {
        out := out + [OutputLine(policy, current.value, total)];
      }
    }
  }

  /** The whole script over its standard input: the printed lines, and
      whether the process reached the end of its input (false when a line
      raised outside the `try`). */
  method Run<V>(p: Policy<V>, lines: seq<string>) returns (out: seq<string>, completed: bool)
    ensures (out, completed) == Expected(p, lines)
  {
    var r := new Reducer(p);
    ScanFromStart(p, lines);
    var i := 0;
    while i < |lines|
      invariant 0 <= i <= |lines|
      invariant r.Valid() && r.policy == p
      invariant ScanFrom(p, lines, i, r.accepted)
    {
      ghost var before := r.accepted;
      var ok := r.Feed(lines[i]);
      if !ok {
        DiesAt(p, lines, i, before, r.current, r.total, r.out);
        return r.out, false;
      }
      ScanFromStep(p, lines, i, before, r.accepted);
      i := i + 1;
    }
    r.Finish();
    Completes(p, lines, r.accepted, r.out);
    return r.out, true;
  }

}
