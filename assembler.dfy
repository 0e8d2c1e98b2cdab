/**
 The component assembler, `extract_components_from_text`. Page text is cut
 into lines at `'\n'`; every line is stripped, and lines shorter than three
 characters are skipped. A header line closes the open component (if any) and
 opens a new one named after it; any other line feeds the open component the
 key/value pairs and part numbers found in it, or is dropped when nothing is
 open. The open component is flushed at the end.

 The specification is the fold `Run` of the one-line transition `Step` over
 the lines; `ExtractComponentsFromText` is the loop of the source, proved to
 compute it. The two `re.findall` extractors are parameters (`Extractors`), so
 every property below holds whatever they return.
 */
module Assembler {
  import opened TextUtil
  import opened HeaderPattern

  datatype Option<T> = None | Some(value: T)

  /** The two `re.findall` calls on a stripped line: the (key, value) pairs of
      the parameter pattern, and the tokens of the part-number pattern. */
  datatype Extractors = Extractors(paramsOf: string -> seq<(string, string)>, partsOf: string -> seq<string>)

  /** One block record: the header line it starts with, its parameters and
      its part numbers. */
  datatype Component = Component(name: string, params: map<string, string>, partNumbers: seq<string>)

  /** The assembler's state between lines: the components already closed and
      the one that is open, if any. */
  datatype State = State(closed: seq<Component>, open: Option<Component>)

  predicate NoDup(s: seq<string>) {
    forall i, j :: 0 <= i < j < |s| ==> s[i] != s[j]
  }

  /** A line that opens a component: at least three characters once
      stripped, and passing the header test. */
  predicate IsHeaderLine(line: string) {
    var l := Strip(line);
    |l| >= 3 && IsHeader(l)
  }

  /** A line whose matches feed the open component. */
  predicate IsBodyLine(line: string) {
    var l := Strip(line);
    |l| >= 3 && !IsHeader(l)
  }

  /** `params[k.strip()] = v.strip()` for each pair in turn. */
  function SetParams(m: map<string, string>, pairs: seq<(string, string)>): map<string, string>
    decreases |pairs|
  {
    if |pairs| == 0 then m
    else
      var last := pairs[|pairs| - 1];
      SetParams(m, pairs[..|pairs| - 1])[Strip(last.0) := Strip(last.1)]
  }

  /** Appends each part number not already present. */
  function AddParts(ps: seq<string>, found: seq<string>): seq<string>
    decreases |found|
  {
    if |found| == 0 then ps
    else
      var r := AddParts(ps, found[..|found| - 1]);
      var m := found[|found| - 1];
      if m in r then r else r + [m]
  }

  /** Appending found part numbers keeps the old list as a prefix, yields
      exactly the old and the found numbers, and adds no duplicate. */
  lemma {:induction false} AddPartsKeepsDistinct(ps: seq<string>, found: seq<string>)
    ensures var r := AddParts(ps, found);
      && |ps| <= |r| && r[..|ps|] == ps
      && (forall x :: x in r <==> x in ps || x in found)
      && (NoDup(ps) ==> NoDup(r))
    decreases |found|
  {
    if |found| > 0 {
      var init := found[..|found| - 1];
      AddPartsKeepsDistinct(ps, init);
      assert found == init + [found[|found| - 1]];
    }
  }

  /** A body line's matches folded into the open component. */
  function Absorb(c: Component, l: string, ex: Extractors): Component {
    c.(params := SetParams(c.params, ex.paramsOf(l)),
       partNumbers := AddParts(c.partNumbers, ex.partsOf(l)))
  }

  /** The components of a state once the open one is flushed. */
  function Flush(st: State): seq<Component> {
    st.closed + if st.open.Some? then [st.open.value] else []
  }

  /** One iteration of the loop over lines. */
  function Step(st: State, line: string, ex: Extractors): State {
    var l := Strip(line);
    if |l| < 3 then st
    else if IsHeader(l) then State(Flush(st), Some(Component(l, map[], [])))
    else match st.open
      case None => st
      case Some(c) => State(st.closed, Some(Absorb(c, l, ex)))
  }

  /** The state after the given lines, from the initial no-open-component state. */
  function Run(lines: seq<string>, ex: Extractors): State
    decreases |lines|
  {
    if |lines| == 0 then State([], None)
    else Step(Run(lines[..|lines| - 1], ex), lines[|lines| - 1], ex)
  }

  /** The components of a sequence of lines. */
  function AssembleLines(lines: seq<string>, ex: Extractors): seq<Component> {
    Flush(Run(lines, ex))
  }

  /** The components of a page's text. */
  function ExtractComponents(text: string, ex: Extractors): seq<Component> {
    AssembleLines(Split(text, '\n'), ex)
  }

  // ---------------------------------------------------------------------
  // Reference definitions the properties are stated with.

  /** The stripped header lines, in order. */
  function Headers(lines: seq<string>): seq<string>
    decreases |lines|
  {
    if |lines| == 0 then []
    else
      var last := lines[|lines| - 1];
      Headers(lines[..|lines| - 1]) + if IsHeaderLine(last) then [Strip(last)] else []
  }

  /** All pairs the parameter extractor finds in the body lines, in order. */
  function BodyPairs(body: seq<string>, ex: Extractors): seq<(string, string)>
    decreases |body|
  {
    if |body| == 0 then []
    else
      var last := body[|body| - 1];
      BodyPairs(body[..|body| - 1], ex) + if IsBodyLine(last) then ex.paramsOf(Strip(last)) else []
  }

  /** All tokens the part-number extractor finds in the body lines, in order. */
  function BodyParts(body: seq<string>, ex: Extractors): seq<string>
    decreases |body|
  {
    if |body| == 0 then []
    else
      var last := body[|body| - 1];
      BodyParts(body[..|body| - 1], ex) + if IsBodyLine(last) then ex.partsOf(Strip(last)) else []
  }

  /** The component a header line and the lines up to the next header make. */
  function Build(header: string, body: seq<string>, ex: Extractors): Component {
    Component(Strip(header), SetParams(map[], BodyPairs(body, ex)), AddParts([], BodyParts(body, ex)))
  }

  /** First-seen deduplication: position `i` survives when `s[i]` does not
      occur before it. */
  function KeepFirst(s: seq<string>): seq<string>
    decreases |s|
  {
    if |s| == 0 then []
    else
      var init := s[..|s| - 1];
      KeepFirst(init) + if s[|s| - 1] in init then [] else [s[|s| - 1]]
  }

  /** The key of pair `j` is `k` once stripped. */
  predicate KeyAt(pairs: seq<(string, string)>, j: int, k: string)
    requires 0 <= j < |pairs|
  {
    Strip(pairs[j].0) == k
  }

  /** Pair `j` is the last pair whose key is `k`. */
  predicate LastKeyAt(pairs: seq<(string, string)>, j: int, k: string) {
    0 <= j < |pairs| && KeyAt(pairs, j, k) && forall j' :: j < j' < |pairs| ==> !KeyAt(pairs, j', k)
  }

  // ---------------------------------------------------------------------
  // The source's loop.

  /** `extract_components_from_text`, with the dictionary of parameters and
      the list of part numbers updated one match at a time. */
  method ExtractComponentsFromText(text: string, ex: Extractors) returns (components: seq<Component>)
    ensures components == ExtractComponents(text, ex)
  {
    var lines := Split(text, '\n');
    components := [];
    var current: Option<Component> := None;
    for n := 0 to |lines|
      invariant Run(lines[..n], ex) == State(components, current)
    {
      assert lines[..n + 1][..n] == lines[..n];
      var l := Strip(lines[n]);
      if |l| < 3 {
        // too short: skipped
      } else if IsHeader(l) {
        if current.Some? {
          components := components + [current.value];
        }
        current := Some(Component(l, map[], []));
      } else {
        var pairs := ex.paramsOf(l);
        if |pairs| > 0 && current.Some? {
          var params := current.value.params;
          for k := 0 to |pairs|
            invariant params == SetParams(current.value.params, pairs[..k])
          {
            assert pairs[..k + 1][..k] == pairs[..k];
            params := params[Strip(pairs[k].0) := Strip(pairs[k].1)];
          }
          assert pairs[..|pairs|] == pairs;
          current := Some(current.value.(params := params));
        }
        var found := ex.partsOf(l);
        ghost var before := current;
        for k := 0 to |found|
          invariant current.Some? <==> before.Some?
          invariant current.Some? ==>
            current.value == before.value.(partNumbers := AddParts(before.value.partNumbers, found[..k]))
        {
          assert found[..k + 1][..k] == found[..k];
          if current.Some? && found[k] !in current.value.partNumbers {
            current := Some(current.value.(partNumbers := current.value.partNumbers + [found[k]]));
          }
        }
        assert found[..|found|] == found;
      }
    }
    assert lines[..|lines|] == lines;
    if current.Some? {
      components := components + [current.value];
    }
  }

  // ---------------------------------------------------------------------
  // Properties of the specification.

  /** There is one component per header line, and component `i` is named
      after the `i`-th header line, stripped. */
  lemma {:induction false} ComponentsFollowHeaders(lines: seq<string>, ex: Extractors)
    ensures |AssembleLines(lines, ex)| == |Headers(lines)|
    ensures forall i :: 0 <= i < |Headers(lines)| ==> AssembleLines(lines, ex)[i].name == Headers(lines)[i]
    ensures Run(lines, ex).open.None? <==> |Headers(lines)| == 0
    decreases |lines|
  {
    if |lines| > 0 {
      var init := lines[..|lines| - 1];
      var x := lines[|lines| - 1];
      ComponentsFollowHeaders(init, ex);
      var st := Run(init, ex);
      var l := Strip(x);
      if |l| >= 3 && !IsHeader(l) && st.open.Some? {
        var now := Flush(Run(lines, ex));
        forall i | 0 <= i < |now|
          ensures now[i].name == Flush(st)[i].name
        {
          if i < |st.closed| {
            assert now[i] == st.closed[i] == Flush(st)[i];
          }
        }
      }
    }
  }

  /** No component ever holds the same part number twice. */
  lemma {:induction false} PartNumbersDistinct(lines: seq<string>, ex: Extractors)
    ensures forall i :: 0 <= i < |AssembleLines(lines, ex)| ==> NoDup(AssembleLines(lines, ex)[i].partNumbers)
    ensures Run(lines, ex).open.Some? ==> NoDup(Run(lines, ex).open.value.partNumbers)
    ensures forall i :: 0 <= i < |Run(lines, ex).closed| ==> NoDup(Run(lines, ex).closed[i].partNumbers)
    decreases |lines|
  {
    if |lines| > 0 {
      var init := lines[..|lines| - 1];
      PartNumbersDistinct(init, ex);
      var st := Run(init, ex);
      var l := Strip(lines[|lines| - 1]);
      if st.open.Some? {
        AddPartsKeepsDistinct(st.open.value.partNumbers, ex.partsOf(l));
      }
    }
  }

  /** Short lines have no effect wherever they appear: removing one from the
      input leaves the state unchanged, even a line such as `"1."` that
      passes the header test. */
  lemma {:induction false} ShortLineIgnored(before: seq<string>, line: string, after: seq<string>, ex: Extractors)
    requires |Strip(line)| < 3
    ensures Run(before + [line] + after, ex) == Run(before + after, ex)
    decreases |after|
  {
    if |after| == 0 {
      assert (before + [line])[..|before|] == before;
      assert before + [line] + after == before + [line];
      assert before + after == before;
    } else {
      var init := after[..|after| - 1];
      ShortLineIgnored(before, line, init, ex);
      assert (before + [line] + after)[..|before + [line] + after| - 1] == before + [line] + init;
      assert (before + after)[..|before + after| - 1] == before + init;
    }
  }

  /** Lines before the first header have no effect: with no header among
      `prefix`, what follows is assembled as if `prefix` were absent. */
  lemma {:induction false} PrefixWithoutHeaderIgnored(prefix: seq<string>, rest: seq<string>, ex: Extractors)
    requires forall i :: 0 <= i < |prefix| ==> !IsHeaderLine(prefix[i])
    ensures Run(prefix + rest, ex) == Run(rest, ex)
    ensures AssembleLines(prefix, ex) == []
    decreases |rest|
  {
    if |rest| == 0 {
      assert prefix + rest == prefix;
      NoHeaderNothingOpen(prefix, ex);
    } else {
      var init := rest[..|rest| - 1];
      PrefixWithoutHeaderIgnored(prefix, init, ex);
      assert (prefix + rest)[..|prefix + rest| - 1] == prefix + init;
    }
  }

  lemma {:induction false} NoHeaderNothingOpen(lines: seq<string>, ex: Extractors)
    requires forall i :: 0 <= i < |lines| ==> !IsHeaderLine(lines[i])
    ensures Run(lines, ex) == State([], None)
    decreases |lines|
  {
    if |lines| > 0 {
      NoHeaderNothingOpen(lines[..|lines| - 1], ex);
    }
  }

  lemma {:induction false} SetParamsConcat(m: map<string, string>, a: seq<(string, string)>, b: seq<(string, string)>)
    ensures SetParams(m, a + b) == SetParams(SetParams(m, a), b)
    decreases |b|
  {
    if |b| == 0 {
      assert a + b == a;
    } else {
      SetParamsConcat(m, a, b[..|b| - 1]);
      assert (a + b)[..|a + b| - 1] == a + b[..|b| - 1];
    }
  }

  lemma {:induction false} AddPartsConcat(ps: seq<string>, a: seq<string>, b: seq<string>)
    ensures AddParts(ps, a + b) == AddParts(AddParts(ps, a), b)
    decreases |b|
  {
    if |b| == 0 {
      assert a + b == a;
    } else {
      AddPartsConcat(ps, a, b[..|b| - 1]);
      assert (a + b)[..|a + b| - 1] == a + b[..|b| - 1];
    }
  }

  /** A header line opens a component that the following non-header lines
      fill: the state after `prefix`, a header and its body is everything
      before the header, flushed, with `Build(header, body)` open. */
  lemma {:induction false} HeaderOpensComponent(prefix: seq<string>, header: string, body: seq<string>, ex: Extractors)
    requires IsHeaderLine(header)
    requires forall i :: 0 <= i < |body| ==> !IsHeaderLine(body[i])
    ensures Run(prefix + [header] + body, ex) == State(AssembleLines(prefix, ex), Some(Build(header, body, ex)))
    decreases |body|
  {
    if |body| == 0 {
      assert prefix + [header] + body == prefix + [header];
      assert (prefix + [header])[..|prefix|] == prefix;
    } else {
      var init := body[..|body| - 1];
      var x := body[|body| - 1];
      HeaderOpensComponent(prefix, header, init, ex);
      var lines := prefix + [header] + body;
      assert lines[..|lines| - 1] == prefix + [header] + init;
      assert !IsHeaderLine(x);
      StepInBody(AssembleLines(prefix, ex), header, init, x, ex);
    }
  }

  /** One more non-header line after a header and its body so far. */
  lemma StepInBody(done: seq<Component>, header: string, init: seq<string>, x: string, ex: Extractors)
    requires !IsHeaderLine(x)
    ensures Step(State(done, Some(Build(header, init, ex))), x, ex)
         == State(done, Some(Build(header, init + [x], ex)))
  {
    var body := init + [x];
    assert body[..|body| - 1] == init;
    var c := Build(header, init, ex);
    var l := Strip(x);
    if IsBodyLine(x) {
      assert BodyPairs(body, ex) == BodyPairs(init, ex) + ex.paramsOf(l);
      assert BodyParts(body, ex) == BodyParts(init, ex) + ex.partsOf(l);
      SetParamsConcat(map[], BodyPairs(init, ex), ex.paramsOf(l));
      AddPartsConcat([], BodyParts(init, ex), ex.partsOf(l));
    } else {
      assert |l| < 3;
      assert BodyPairs(body, ex) == BodyPairs(init, ex);
      assert BodyParts(body, ex) == BodyParts(init, ex);
      assert Build(header, body, ex) == c;
    }
  }

  /** Component by component: the output for `prefix`, a header and the
      non-header lines after it is the output for `prefix` followed by exactly
      one more component, the one the header and those lines build. */
  lemma SpanAddsOneComponent(prefix: seq<string>, header: string, body: seq<string>, ex: Extractors)
    requires IsHeaderLine(header)
    requires forall i :: 0 <= i < |body| ==> !IsHeaderLine(body[i])
    ensures AssembleLines(prefix + [header] + body, ex) == AssembleLines(prefix, ex) + [Build(header, body, ex)]
  {
    HeaderOpensComponent(prefix, header, body, ex);
  }

  /** The component of a header and its body is named after the header; its
      part numbers are those of the body in first-seen order without
      repeats; each parameter key holds the stripped value of the last body
      pair with that key, and no other key is present. */
  lemma SpanComponent(header: string, body: seq<string>, ex: Extractors, k: string)
    ensures var c, pairs := Build(header, body, ex), BodyPairs(body, ex);
      && c.name == Strip(header)
      && c.partNumbers == KeepFirst(BodyParts(body, ex))
      && (forall j :: LastKeyAt(pairs, j, k) ==> k in c.params && c.params[k] == Strip(pairs[j].1))
      && ((forall j :: 0 <= j < |pairs| ==> !KeyAt(pairs, j, k)) ==> k !in c.params)
  {
    AddPartsIsKeepFirst([], BodyParts(body, ex));
    assert [] + BodyParts(body, ex) == BodyParts(body, ex);
    LastWriteWins(map[], BodyPairs(body, ex), k);
  }

  /** A new component starts with no parameters and no part numbers: two
      header lines in a row give an empty first component. */
  lemma HeaderAfterHeader(prefix: seq<string>, h1: string, h2: string, ex: Extractors)
    requires IsHeaderLine(h1) && IsHeaderLine(h2)
    ensures AssembleLines(prefix + [h1, h2], ex)
      == AssembleLines(prefix, ex) + [Component(Strip(h1), map[], []), Component(Strip(h2), map[], [])]
  {
    SpanAddsOneComponent(prefix, h1, [], ex);
    assert prefix + [h1] + [] == prefix + [h1];
    SpanAddsOneComponent(prefix + [h1], h2, [], ex);
    assert prefix + [h1] + [h2] + [] == prefix + [h1, h2];
  }

  /** Last write wins: after the pairs, key `k` holds the stripped value of
      the last pair whose stripped key is `k`; a key no pair names keeps its
      old binding, or stays absent. */
  lemma LastWriteWins(m: map<string, string>, pairs: seq<(string, string)>, k: string)
    ensures forall j :: LastKeyAt(pairs, j, k) ==>
      k in SetParams(m, pairs) && SetParams(m, pairs)[k] == Strip(pairs[j].1)
    ensures (forall j :: 0 <= j < |pairs| ==> !KeyAt(pairs, j, k)) ==>
      (k in SetParams(m, pairs) <==> k in m) && (k in m ==> SetParams(m, pairs)[k] == m[k])
  {
    forall j | LastKeyAt(pairs, j, k)
      ensures k in SetParams(m, pairs) && SetParams(m, pairs)[k] == Strip(pairs[j].1)
    {
      LastPairWins(m, pairs, k, j);
    }
    if forall j :: 0 <= j < |pairs| ==> !KeyAt(pairs, j, k) {
      UnnamedKeyKept(m, pairs, k);
    }
  }

  lemma {:induction false} LastPairWins(m: map<string, string>, pairs: seq<(string, string)>, k: string, j: int)
    requires LastKeyAt(pairs, j, k)
    ensures k in SetParams(m, pairs) && SetParams(m, pairs)[k] == Strip(pairs[j].1)
    decreases |pairs|
  {
    var n := |pairs| - 1;
    if j < n {
      var init := pairs[..n];
      assert !KeyAt(pairs, n, k);
      assert LastKeyAt(init, j, k) by {
        assert KeyAt(init, j, k);
        forall j' | j < j' < |init| ensures !KeyAt(init, j', k) {
          assert !KeyAt(pairs, j', k);
        }
      }
      LastPairWins(m, init, k, j);
    }
  }

  lemma {:induction false} UnnamedKeyKept(m: map<string, string>, pairs: seq<(string, string)>, k: string)
    requires forall j :: 0 <= j < |pairs| ==> !KeyAt(pairs, j, k)
    ensures k in SetParams(m, pairs) <==> k in m
    ensures k in m ==> SetParams(m, pairs)[k] == m[k]
    decreases |pairs|
  {
    if |pairs| > 0 {
      var n := |pairs| - 1;
      var init := pairs[..n];
      assert !KeyAt(pairs, n, k);
      forall j | 0 <= j < |init| ensures !KeyAt(init, j, k) {
        assert !KeyAt(pairs, j, k);
      }
      UnnamedKeyKept(m, init, k);
    }
  }

  lemma {:induction false} KeepFirstOfDistinct(s: seq<string>)
    requires NoDup(s)
    ensures KeepFirst(s) == s
    decreases |s|
  {
    if |s| > 0 {
      KeepFirstOfDistinct(s[..|s| - 1]);
    }
  }

  lemma {:induction false} KeepFirstElements(s: seq<string>)
    ensures forall x :: x in KeepFirst(s) <==> x in s
    decreases |s|
  {
    if |s| > 0 {
      KeepFirstElements(s[..|s| - 1]);
      assert s == s[..|s| - 1] + [s[|s| - 1]];
    }
  }

  /** Appending found part numbers to a list without repeats is first-seen
      deduplication of the list followed by the numbers. */
  lemma {:induction false} AddPartsIsKeepFirst(ps: seq<string>, found: seq<string>)
    requires NoDup(ps)
    ensures AddParts(ps, found) == KeepFirst(ps + found)
    decreases |found|
  {
    if |found| == 0 {
      assert ps + found == ps;
      KeepFirstOfDistinct(ps);
    } else {
      var init := found[..|found| - 1];
      AddPartsIsKeepFirst(ps, init);
      AddPartsKeepsDistinct(ps, init);
      assert (ps + found)[..|ps + found| - 1] == ps + init;
      KeepFirstElements(ps + init);
    }
  }

  /** Appending a part number that is already present changes nothing;
      appending a new one puts it last. */
  lemma AddOnePart(ps: seq<string>, m: string)
    ensures m in ps ==> AddParts(ps, [m]) == ps
    ensures m !in ps ==> AddParts(ps, [m]) == ps + [m]
  {
    assert [m][..0] == [];
  }
}
