/**
 * The day's summaries: the per-project totals of groupByProject
 * (app.js:600-612) and the most frequent comments of getFrequentComments
 * (app.js:128-150). Both scan the entries once, accumulating into a `Map`.
 */
module Summary {
  import opened Base
  import opened Text
  import opened Entries
  import StableSort

  // ---------------------------------------------------------------------------
  // groupByProject
  // ---------------------------------------------------------------------------

  /** The project names the summary map meets, in the order it first meets them; pauses skipped. */
  function Labels(es: seq<Entry>): seq<string>
  {
    if |es| == 0 then []
    else
      var prev := Labels(es[..|es| - 1]);
      var e := es[|es| - 1];
      if IsPause(e) || ProjectLabel(e) in prev then prev else prev + [ProjectLabel(e)]
  }

  /** The entry is not a pause and is filed under the project name `name`. */
  predicate FiledUnder(e: Entry, name: string) { !IsPause(e) && ProjectLabel(e) == name }

  /** The minutes the map holds for `name` after the entries `es`, durations taken within the day `day`. */
  function TotalFor(es: seq<Entry>, day: seq<Entry>, name: string): int
  {
    if |es| == 0 then 0
    else
      var e := es[|es| - 1];
      TotalFor(es[..|es| - 1], day, name) + (if FiledUnder(e, name) then VisibleMinutes(e, day) else 0)
  }

  /** One `[project, minutes]` pair of groupByProject's result. */
  datatype Row = Row(project: string, minutes: int)

  function RowsFor(names: seq<string>, day: seq<Entry>): (r: seq<Row>)
    ensures |r| == |names|
    ensures forall i :: 0 <= i < |names| ==> r[i] == Row(names[i], TotalFor(day, day, names[i]))
  {
    if |names| == 0 then [] else [Row(names[0], TotalFor(day, day, names[0]))] + RowsFor(names[1..], day)
  }

  /** The summary of a day: its project names in name order, each with its total. */
  function ProjectSummary(day: seq<Entry>): seq<Row>
  {
    RowsFor(SortNames(Labels(day)), day)
  }

  /**
   * groupByProject (app.js:600-612): every entry that is not a pause adds its
   * displayed duration to the total of its project name; the pairs come out
   * sorted by name.
   */
  method GroupByProject(es: seq<Entry>) returns (rows: seq<Row>)
    ensures rows == ProjectSummary(es)
  {
    var acc: map<string, int> := map[];
    var keys: seq<string> := [];
    var i := 0;
    while i < |es|
      invariant 0 <= i <= |es|
      invariant Accumulated(acc, keys, es[..i], es)
    {
      acc, keys := AccumulateEntry(acc, keys, es, i);
      i := i + 1;
    }
    assert es[..i] == es;
    // Array.from(acc.entries()) sorted by key: the keys in name order, each with its total.
    var sorted := SortNames(keys);
    forall j | 0 <= j < |sorted| ensures sorted[j] in acc {
      assert sorted[j] in multiset(keys);
    }
    rows := seq(|sorted|, j requires 0 <= j < |sorted| => Row(sorted[j], acc[sorted[j]]));
  }

  /** The body of the loop of app.js:602-610, for the entry at position `i` of the day `es`. */
  method AccumulateEntry(acc: map<string, int>, keys: seq<string>, es: seq<Entry>, i: nat)
    returns (acc': map<string, int>, keys': seq<string>)
    requires i < |es| && Accumulated(acc, keys, es[..i], es)
    ensures Accumulated(acc', keys', es[..i + 1], es)
  {
    var e := es[i];
    if IsPause(e) {
      AccumulateSkip(acc, keys, es, i, es);
      return acc, keys;
    }
    var key := ProjectLabel(e);
    var sofar := if key in acc then acc[key] else 0;
    acc' := acc[key := sofar + VisibleMinutes(e, es)];
    // A Map keeps its keys in the order they were first set.
    keys' := if key in keys then keys else keys + [key];
    AccumulateAdd(acc, keys, es, i, es, acc', keys');
  }

  /**
   * The map after the entries `prefix`: its keys are the names met, in the
   * order met, and each holds its total so far.
   */
  ghost predicate Accumulated(acc: map<string, int>, keys: seq<string>, prefix: seq<Entry>, day: seq<Entry>)
  {
    && keys == Labels(prefix)
    && (forall k :: k in acc <==> k in keys)
    && (forall k :: k in acc ==> acc[k] == TotalFor(prefix, day, k))
  }

  /** A turn of the loop of app.js:602-610 on a pause keeps the map in step with the entries read. */
  lemma AccumulateSkip(acc: map<string, int>, keys: seq<string>, es: seq<Entry>, i: nat, day: seq<Entry>)
    requires i < |es| && Accumulated(acc, keys, es[..i], day) && IsPause(es[i])
    ensures Accumulated(acc, keys, es[..i + 1], day)
  {
    LabelsStep(es, i);
    forall k | k in acc ensures acc[k] == TotalFor(es[..i + 1], day, k) {
      TotalForStep(es, i, day, k);
    }
  }

  /** A turn of the loop of app.js:602-610 that adds an entry's minutes keeps the map in step with the entries read. */
  lemma AccumulateAdd(acc: map<string, int>, keys: seq<string>, es: seq<Entry>, i: nat, day: seq<Entry>,
                      acc': map<string, int>, keys': seq<string>)
    requires i < |es| && Accumulated(acc, keys, es[..i], day) && !IsPause(es[i])
    requires var key := ProjectLabel(es[i]);
             && acc' == acc[key := (if key in acc then acc[key] else 0) + VisibleMinutes(es[i], day)]
             && keys' == if key in keys then keys else keys + [key]
    ensures Accumulated(acc', keys', es[..i + 1], day)
  {
    var key := ProjectLabel(es[i]);
    LabelsStep(es, i);
    if key !in keys {
      LabelsCoverTotals(es[..i], day, key);
    }
    forall k | k in acc' ensures acc'[k] == TotalFor(es[..i + 1], day, k) {
      TotalForStep(es, i, day, k);
    }
  }

  /** A name never met has no minutes. */
  lemma {:induction false} LabelsCoverTotals(es: seq<Entry>, day: seq<Entry>, name: string)
    requires name !in Labels(es)
    ensures TotalFor(es, day, name) == 0
  {
    if |es| > 0 {
      LabelsCoverTotals(es[..|es| - 1], day, name);
    }
  }

  lemma LabelsStep(es: seq<Entry>, i: nat)
    requires i < |es|
    ensures Labels(es[..i + 1]) ==
              if IsPause(es[i]) || ProjectLabel(es[i]) in Labels(es[..i]) then Labels(es[..i])
              else Labels(es[..i]) + [ProjectLabel(es[i])]
  {
    assert es[..i + 1][..i] == es[..i];
  }

  lemma TotalForStep(es: seq<Entry>, i: nat, day: seq<Entry>, name: string)
    requires i < |es|
    ensures TotalFor(es[..i + 1], day, name) ==
              TotalFor(es[..i], day, name) + (if FiledUnder(es[i], name) then VisibleMinutes(es[i], day) else 0)
  {
    assert es[..i + 1][..i] == es[..i];
  }

  /** Some entry of `es` is filed under `name`. */
  predicate HasProject(es: seq<Entry>, name: string)
  {
    |es| > 0 && (FiledUnder(es[|es| - 1], name) || HasProject(es[..|es| - 1], name))
  }

  /** Any entry filed under `name` makes `name` a project of the day. */
  lemma {:induction false} HasProjectAt(es: seq<Entry>, k: nat, name: string)
    requires k < |es| && FiledUnder(es[k], name)
    ensures HasProject(es, name)
  {
    if k < |es| - 1 {
      assert es[..|es| - 1][k] == es[k];
      HasProjectAt(es[..|es| - 1], k, name);
    }
  }

  /** A project of the day has an entry filed under it. */
  lemma {:induction false} HasProjectWitness(es: seq<Entry>, name: string) returns (k: nat)
    requires HasProject(es, name)
    ensures k < |es| && FiledUnder(es[k], name)
  {
    if FiledUnder(es[|es| - 1], name) {
      k := |es| - 1;
    } else {
      k := HasProjectWitness(es[..|es| - 1], name);
      assert es[..|es| - 1][k] == es[k];
    }
  }

  /** The names met are those of the non-pause entries. */
  lemma {:induction false} LabelsMembers(es: seq<Entry>, name: string)
    ensures name in Labels(es) <==> HasProject(es, name)
  {
    if |es| > 0 {
      LabelsMembers(es[..|es| - 1], name);
    }
  }

  /** Each name is met once. */
  lemma {:induction false} LabelsDistinct(es: seq<Entry>)
    ensures NoDuplicates(Labels(es))
  {
    if |es| > 0 {
      LabelsDistinct(es[..|es| - 1]);
    }
  }

  /**
   * What groupByProject promises, part 1: the rows come in strictly
   * increasing name order (so each name once), and each row's minutes are
   * the sum of the displayed durations of the non-pause entries filed under
   * its name.
   */
  lemma ProjectSummaryOrdered(es: seq<Entry>)
    ensures var rows := ProjectSummary(es);
            && (forall i, j :: 0 <= i < j < |rows| ==> LexLess(rows[i].project, rows[j].project))
            && (forall i :: 0 <= i < |rows| ==> rows[i].minutes == TotalFor(es, es, rows[i].project))
  {
    LabelsDistinct(es);
    SortNamesStrict(Labels(es));
  }

  /** What groupByProject promises, part 2: a row for a name exactly when some non-pause entry is filed under it. */
  lemma ProjectSummaryNames(es: seq<Entry>, name: string)
    ensures var rows := ProjectSummary(es);
            (exists i :: 0 <= i < |rows| && rows[i].project == name) <==> HasProject(es, name)
  {
    var names := SortNames(Labels(es));
    var rows := ProjectSummary(es);
    LabelsMembers(es, name);
    if name in Labels(es) {
      assert name in multiset(names);
      var i :| 0 <= i < |names| && names[i] == name;
      assert rows[i].project == name;
    }
    if exists i :: 0 <= i < |rows| && rows[i].project == name {
      var i :| 0 <= i < |rows| && rows[i].project == name;
      assert names[i] in multiset(Labels(es));
    }
  }

  /** What groupByProject promises, part 3: no name is empty, carries surrounding blanks or reads `pause`. */
  lemma ProjectSummaryPlain(es: seq<Entry>)
    ensures var rows := ProjectSummary(es);
            forall i :: 0 <= i < |rows| ==>
              rows[i].project != "" && Trim(rows[i].project) == rows[i].project && AsciiLower(rows[i].project) != "pause"
  {
    var names := SortNames(Labels(es));
    var rows := ProjectSummary(es);
    forall i | 0 <= i < |rows|
      ensures rows[i].project != "" && Trim(rows[i].project) == rows[i].project && AsciiLower(rows[i].project) != "pause"
    {
      assert names[i] in multiset(Labels(es));
      LabelsMembers(es, names[i]);
      var k := HasProjectWitness(es, names[i]);
      NameIsPlain(es[k]);
    }
  }

  lemma NameIsPlain(e: Entry)
    requires !IsPause(e)
    ensures ProjectLabel(e) != "" && Trim(ProjectLabel(e)) == ProjectLabel(e) && AsciiLower(ProjectLabel(e)) != "pause"
  {
    ProjectLabelPlain(e);
    if Trim(e.project) == "" {
      assert |SansProjet| == 11;
    }
  }

  // ---------------------------------------------------------------------------
  // getFrequentComments
  // ---------------------------------------------------------------------------

  /**
   * The comment an entry contributes to the count (app.js:134-141): its
   * trimmed comment when that is not empty and, when a project is asked for,
   * the entry's trimmed project matches it ignoring case.
   */
  function CountedComment(e: Entry, forProject: Option<string>): Option<string>
  {
    var c := Trim(e.comment);
    if c == "" then None
    else if forProject.Some? && AsciiLower(Trim(e.project)) != AsciiLower(forProject.value) then None
    else Some(c)
  }

  /** The entry contributes one to the count of `c`. */
  predicate CountsFor(e: Entry, forProject: Option<string>, c: string) { CountedComment(e, forProject) == Some(c) }

  /** The comments counted, in the order the frequency map first meets them. */
  function CommentKeys(es: seq<Entry>, forProject: Option<string>): seq<string>
  {
    if |es| == 0 then []
    else
      var prev := CommentKeys(es[..|es| - 1], forProject);
      match CountedComment(es[|es| - 1], forProject)
      case None => prev
      case Some(c) => if c in prev then prev else prev + [c]
  }

  /** How many entries contribute the comment `c`. */
  function CommentCount(es: seq<Entry>, forProject: Option<string>, c: string): nat
  {
    if |es| == 0 then 0
    else CommentCount(es[..|es| - 1], forProject, c) + (if CountsFor(es[|es| - 1], forProject, c) then 1 else 0)
  }

  /** One `[comment, count]` pair of the frequency map. */
  datatype Tally = Tally(comment: string, count: nat)

  /** The comparator `(a, b) => b[1] - a[1]`: higher counts first. */
  function ByCountDescending(t: Tally): int { -(t.count as int) }

  function TalliesFor(keys: seq<string>, es: seq<Entry>, forProject: Option<string>): (r: seq<Tally>)
    ensures |r| == |keys|
    ensures forall i :: 0 <= i < |keys| ==> r[i] == Tally(keys[i], CommentCount(es, forProject, keys[i]))
  {
    if |keys| == 0 then []
    else [Tally(keys[0], CommentCount(es, forProject, keys[0]))] + TalliesFor(keys[1..], es, forProject)
  }

  function CommentsOf(ts: seq<Tally>): (r: seq<string>)
    ensures |r| == |ts| && forall i :: 0 <= i < |ts| ==> r[i] == ts[i].comment
  {
    if |ts| == 0 then [] else [ts[0].comment] + CommentsOf(ts[1..])
  }

  /** The tallies in the order the stable sort by count leaves them. */
  function Ranked(es: seq<Entry>, forProject: Option<string>): seq<Tally>
  {
    StableSort.SortByKey(TalliesFor(CommentKeys(es, forProject), es, forProject), ByCountDescending)
  }

  /** The list getFrequentComments returns: the first `maxItems` ranked comments. */
  function FrequentSpec(es: seq<Entry>, maxItems: nat, forProject: Option<string>): seq<string>
  {
    var ranked := Ranked(es, forProject);
    CommentsOf(ranked[..Min(maxItems, |ranked|)])
  }

  /**
   * getFrequentComments (app.js:128-150) over the day's entries. The
   * `limitDays` parameter is never read by the source and is not modelled.
   */
  method FrequentComments(es: seq<Entry>, maxItems: nat, forProject: Option<string>) returns (out: seq<string>)
    ensures out == FrequentSpec(es, maxItems, forProject)
  {
    var freq: map<string, nat> := map[];
    var keys: seq<string> := [];
    var i := 0;
    while i < |es|
      invariant 0 <= i <= |es|
      invariant Tallied(freq, keys, es[..i], forProject)
    {
      freq, keys := TallyEntry(freq, keys, es, i, forProject);
      i := i + 1;
    }
    assert es[..i] == es;
    // Array.from(freq.entries()): the pairs in the order their keys were first set.
    var tallies := seq(|keys|, j requires 0 <= j < |keys| => Tally(keys[j], freq[keys[j]]));
    assert tallies == TalliesFor(keys, es, forProject);
    var ranked := StableSort.SortByKey(tallies, ByCountDescending);
    out := CommentsOf(ranked[..Min(maxItems, |ranked|)]);
  }

  /** The body of the loop of app.js:132-143, for the entry at position `i` of `es`. */
  method TallyEntry(freq: map<string, nat>, keys: seq<string>, es: seq<Entry>, i: nat, forProject: Option<string>)
    returns (freq': map<string, nat>, keys': seq<string>)
    requires i < |es| && Tallied(freq, keys, es[..i], forProject)
    ensures Tallied(freq', keys', es[..i + 1], forProject)
  {
    match CountedComment(es[i], forProject) {
      case None =>
        TallySkip(freq, keys, es, i, forProject);
        freq', keys' := freq, keys;
      case Some(c) =>
        var sofar := if c in freq then freq[c] else 0;
        freq' := freq[c := sofar + 1];
        keys' := if c in keys then keys else keys + [c];
        TallyCount(freq, keys, es, i, forProject, c, freq', keys');
    }
  }

  /** The frequency map after the entries `prefix`: its keys in the order first set, each with its count so far. */
  ghost predicate Tallied(freq: map<string, nat>, keys: seq<string>, prefix: seq<Entry>, forProject: Option<string>)
  {
    && keys == CommentKeys(prefix, forProject)
    && (forall k :: k in freq <==> k in keys)
    && (forall k :: k in freq ==> freq[k] == CommentCount(prefix, forProject, k))
  }

  /** A turn of the loop of app.js:132-143 that counts nothing keeps the map in step with the entries read. */
  lemma TallySkip(freq: map<string, nat>, keys: seq<string>, es: seq<Entry>, i: nat, forProject: Option<string>)
    requires i < |es| && Tallied(freq, keys, es[..i], forProject)
    requires CountedComment(es[i], forProject).None?
    ensures Tallied(freq, keys, es[..i + 1], forProject)
  {
    CountStep(es, i, forProject);
  }

  /** A turn of the loop of app.js:132-143 that counts `c` keeps the map in step with the entries read. */
  lemma TallyCount(freq: map<string, nat>, keys: seq<string>, es: seq<Entry>, i: nat, forProject: Option<string>, c: string,
                   freq': map<string, nat>, keys': seq<string>)
    requires i < |es| && Tallied(freq, keys, es[..i], forProject)
    requires CountedComment(es[i], forProject) == Some(c)
    requires freq' == freq[c := (if c in freq then freq[c] else 0) + 1]
    requires keys' == if c in keys then keys else keys + [c]
    ensures Tallied(freq', keys', es[..i + 1], forProject)
  {
    CountStep(es, i, forProject);
    if c !in keys {
      CommentKeysCoverCounts(es[..i], forProject, c);
    }
    forall k | k in freq' ensures freq'[k] == CommentCount(es[..i + 1], forProject, k) {
      if k != c {
        assert !CountsFor(es[i], forProject, k);
      }
    }
  }

  lemma CountStep(es: seq<Entry>, i: nat, forProject: Option<string>)
    requires i < |es|
    ensures CommentKeys(es[..i + 1], forProject) ==
              match CountedComment(es[i], forProject)
              case None => CommentKeys(es[..i], forProject)
              case Some(c) => if c in CommentKeys(es[..i], forProject) then CommentKeys(es[..i], forProject)
                              else CommentKeys(es[..i], forProject) + [c]
    ensures forall k :: CommentCount(es[..i + 1], forProject, k) ==
              CommentCount(es[..i], forProject, k) + (if CountsFor(es[i], forProject, k) then 1 else 0)
  {
    assert es[..i + 1][..i] == es[..i];
  }

  /** A comment never counted has count zero. */
  lemma {:induction false} CommentKeysCoverCounts(es: seq<Entry>, forProject: Option<string>, c: string)
    requires c !in CommentKeys(es, forProject)
    ensures CommentCount(es, forProject, c) == 0
  {
    if |es| > 0 {
      CommentKeysCoverCounts(es[..|es| - 1], forProject, c);
    }
  }

  /** Each comment is counted under one key. */
  lemma {:induction false} CommentKeysDistinct(es: seq<Entry>, forProject: Option<string>)
    ensures NoDuplicates(CommentKeys(es, forProject))
  {
    if |es| > 0 {
      CommentKeysDistinct(es[..|es| - 1], forProject);
    }
  }

  /** A comment is a key exactly when its count is positive. */
  lemma {:induction false} CommentKeysMembers(es: seq<Entry>, forProject: Option<string>, c: string)
    ensures c in CommentKeys(es, forProject) <==> CommentCount(es, forProject, c) > 0
  {
    if |es| > 0 {
      CommentKeysMembers(es[..|es| - 1], forProject, c);
    }
  }

  /** A comment with a positive count is contributed by some entry. */
  lemma {:induction false} CountWitness(es: seq<Entry>, forProject: Option<string>, c: string) returns (k: nat)
    requires CommentCount(es, forProject, c) > 0
    ensures k < |es| && CountsFor(es[k], forProject, c)
  {
    if CountsFor(es[|es| - 1], forProject, c) {
      k := |es| - 1;
    } else {
      k := CountWitness(es[..|es| - 1], forProject, c);
      assert es[..|es| - 1][k] == es[k];
    }
  }

  /** The ranked tallies are the tallies of the counted comments, rearranged. */
  lemma RankedTallies(es: seq<Entry>, forProject: Option<string>)
    ensures var ranked := Ranked(es, forProject);
            && |ranked| == |CommentKeys(es, forProject)|
            && forall i :: 0 <= i < |ranked| ==>
                 ranked[i].comment in CommentKeys(es, forProject)
                 && ranked[i].count == CommentCount(es, forProject, ranked[i].comment)
  {
    var tallies := TalliesFor(CommentKeys(es, forProject), es, forProject);
    var ranked := Ranked(es, forProject);
    forall i | 0 <= i < |ranked|
      ensures ranked[i].comment in CommentKeys(es, forProject)
      ensures ranked[i].count == CommentCount(es, forProject, ranked[i].comment)
    {
      assert ranked[i] in multiset(tallies);
    }
  }

  /** No comment is ranked twice. */
  lemma RankedDistinct(es: seq<Entry>, forProject: Option<string>)
    ensures var ranked := Ranked(es, forProject);
            forall i, j :: 0 <= i < j < |ranked| ==> ranked[i].comment != ranked[j].comment
  {
    var keys := CommentKeys(es, forProject);
    var tallies := TalliesFor(keys, es, forProject);
    var ranked := Ranked(es, forProject);
    CommentKeysDistinct(es, forProject);
    forall i, j | 0 <= i < j < |ranked| ensures ranked[i].comment != ranked[j].comment {
      var a, b := StableSort.PermutationPositions(tallies, ranked, i, j);
      assert keys[a] != keys[b];
    }
  }

  /** Counts never increase along the ranking. */
  lemma RankedByCount(es: seq<Entry>, forProject: Option<string>)
    ensures var ranked := Ranked(es, forProject);
            forall i, j :: 0 <= i < j < |ranked| ==> ranked[i].count >= ranked[j].count
  {
    var tallies := TalliesFor(CommentKeys(es, forProject), es, forProject);
    StableSort.SortOrdered(tallies, ByCountDescending);
  }

  /** Every counted comment has a place in the ranking. */
  lemma RankedPosition(es: seq<Entry>, forProject: Option<string>, c: string) returns (q: nat)
    requires c in CommentKeys(es, forProject)
    ensures var ranked := Ranked(es, forProject); q < |ranked| && ranked[q].comment == c
  {
    var keys := CommentKeys(es, forProject);
    var tallies := TalliesFor(keys, es, forProject);
    var ranked := Ranked(es, forProject);
    var p :| 0 <= p < |keys| && keys[p] == c;
    assert tallies[p] in multiset(ranked);
    q :| 0 <= q < |ranked| && ranked[q] == tallies[p];
  }

  /** The ranked comments at the front of the ranking are the output. */
  lemma FrequentIsRankedPrefix(es: seq<Entry>, maxItems: nat, forProject: Option<string>)
    ensures var out := FrequentSpec(es, maxItems, forProject);
            var ranked := Ranked(es, forProject);
            && |out| == Min(maxItems, |CommentKeys(es, forProject)|)
            && forall i :: 0 <= i < |out| ==> out[i] == ranked[i].comment
  {
    RankedTallies(es, forProject);
  }

  /**
   * What getFrequentComments promises, part 1: at most `maxItems` comments,
   * and fewer only when every qualifying comment is listed; each listed
   * comment is a trimmed comment of some qualifying entry, and none twice.
   */
  lemma FrequentComposition(es: seq<Entry>, maxItems: nat, forProject: Option<string>)
    ensures var out := FrequentSpec(es, maxItems, forProject);
            && |out| == Min(maxItems, |CommentKeys(es, forProject)|)
            && NoDuplicates(out)
            && forall i :: 0 <= i < |out| ==> CommentCount(es, forProject, out[i]) > 0
  {
    var out := FrequentSpec(es, maxItems, forProject);
    var ranked := Ranked(es, forProject);
    RankedTallies(es, forProject);
    RankedDistinct(es, forProject);
    FrequentIsRankedPrefix(es, maxItems, forProject);
    forall i | 0 <= i < |out| ensures CommentCount(es, forProject, out[i]) > 0 {
      CommentKeysMembers(es, forProject, out[i]);
    }
  }

  /**
   * What getFrequentComments promises, part 2: the comments come by
   * non-increasing count, and a qualifying comment left out is no more
   * frequent than any listed one (and is left out only when the list is full).
   */
  lemma FrequentRanking(es: seq<Entry>, maxItems: nat, forProject: Option<string>)
    ensures var out := FrequentSpec(es, maxItems, forProject);
            && (forall i, j :: 0 <= i < j < |out| ==> CommentCount(es, forProject, out[i]) >= CommentCount(es, forProject, out[j]))
            && (forall c :: c in CommentKeys(es, forProject) && c !in out ==>
                  |out| == maxItems && forall i :: 0 <= i < |out| ==> CommentCount(es, forProject, out[i]) >= CommentCount(es, forProject, c))
  {
    var ranked := Ranked(es, forProject);
    var out := FrequentSpec(es, maxItems, forProject);
    RankedTallies(es, forProject);
    RankedByCount(es, forProject);
    FrequentIsRankedPrefix(es, maxItems, forProject);
    forall c | c in CommentKeys(es, forProject) && c !in out
      ensures |out| == maxItems && forall i :: 0 <= i < |out| ==> CommentCount(es, forProject, out[i]) >= CommentCount(es, forProject, c)
    {
      var q := RankedPosition(es, forProject, c);
      assert q >= |out|;
    }
  }
}
