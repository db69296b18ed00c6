/** The ranking engine of the results page: the two rankings of one season
    (by access phase and by the sum of the three rounds), each cut into the
    first thirty and the overflow with a sum over the first thirty only, the
    rank numbers shown in the tables, and the evolution of a participant's
    phase against the season before. */
module Ranking {
  import opened Wrappers
  import Text

  /** One participant row of a season as the seasons endpoint serves it.
      `total` is the stored total column; the by-total ranking overwrites it
      with `r1 + r2 + r3` on its own copy. */
  datatype Participant = Participant(
    name: string, habbyId: Option<string>,
    fase: int, r1: int, r2: int, r3: int, total: int)

  datatype Season = Season(startDate: string, endDate: string, participants: seq<Participant>)

  /** The value a ranking orders by. */
  datatype Metric = ByFase | ByTotal

  function Key(m: Metric, p: Participant): int
  {
    match m
    case ByFase => p.fase
    case ByTotal => p.total
  }

  /** Non-increasing order of the metric. */
  predicate Descending(s: seq<Participant>, m: Metric)
  {
    forall i, j :: 0 <= i < j < |s| ==> Key(m, s[i]) >= Key(m, s[j])
  }

  /** The participants whose metric equals `k`, in their order in `s`. */
  function WithKey(s: seq<Participant>, m: Metric, k: int): seq<Participant>
  {
    if s == [] then [] else (if Key(m, s[0]) == k then [s[0]] else []) + WithKey(s[1..], m, k)
  }

  // ---------------------------------------------------------------- stable sort

  /** Puts `x` in front of the first element whose metric is not larger, so
      `x` lands before every element of `s` with an equal metric. */
  function Insert(x: Participant, s: seq<Participant>, m: Metric): (r: seq<Participant>)
    ensures |r| == |s| + 1 && multiset(r) == multiset(s) + multiset{x}
    ensures r[0] == x || (s != [] && r[0] == s[0])
  {
    if s == [] || Key(m, x) >= Key(m, s[0]) then [x] + s
    else
      assert s == [s[0]] + s[1..];
      [s[0]] + Insert(x, s[1..], m)
  }

  lemma {:induction false} InsertDescending(x: Participant, s: seq<Participant>, m: Metric)
    requires Descending(s, m)
    ensures Descending(Insert(x, s, m), m)
  {
    if s != [] && Key(m, x) < Key(m, s[0]) {
      var tail := Insert(x, s[1..], m);
      InsertDescending(x, s[1..], m);
      var r := [s[0]] + tail;
      assert Key(m, s[0]) >= Key(m, tail[0]);
      forall i, j | 0 <= i < j < |r| ensures Key(m, r[i]) >= Key(m, r[j]) {
        if i == 0 {
          assert r[j] == tail[j - 1];
        } else {
          assert r[i] == tail[i - 1] && r[j] == tail[j - 1];
        }
      }
    }
  }

  /** `[...participants].sort((a, b) => key(b) - key(a))`: ECMAScript's sort
      is stable, so this is the stable sort by metric, largest first. */
  function SortDesc(s: seq<Participant>, m: Metric): (r: seq<Participant>)
    ensures |r| == |s| && multiset(r) == multiset(s)
    ensures Descending(r, m)
  {
    if s == [] then []
    else
      assert s == [s[0]] + s[1..];
      InsertDescending(s[0], SortDesc(s[1..], m), m);
      Insert(s[0], SortDesc(s[1..], m), m)
  }

  lemma WithKeyCons(x: Participant, s: seq<Participant>, m: Metric, k: int)
    ensures WithKey([x] + s, m, k) == (if Key(m, x) == k then [x] else []) + WithKey(s, m, k)
  {
    assert ([x] + s)[1..] == s;
  }

  /** Inserting `x` adds it to the front of its own key class and leaves the
      other key classes as they were. */
  lemma {:induction false} InsertWithKey(x: Participant, s: seq<Participant>, m: Metric, k: int)
    ensures WithKey(Insert(x, s, m), m, k) == (if Key(m, x) == k then [x] else []) + WithKey(s, m, k)
  {
    if s == [] || Key(m, x) >= Key(m, s[0]) {
      WithKeyCons(x, s, m, k);
    } else {
      var tail := Insert(x, s[1..], m);
      assert Insert(x, s, m) == [s[0]] + tail;
      InsertWithKey(x, s[1..], m, k);
      WithKeyCons(s[0], tail, m, k);
      assert s == [s[0]] + s[1..];
      WithKeyCons(s[0], s[1..], m, k);
      if Key(m, x) == k {
        // s[0] has a larger metric than x, so it is not in x's class
        assert WithKey(s, m, k) == WithKey(s[1..], m, k);
        assert WithKey(Insert(x, s, m), m, k) == WithKey(tail, m, k);
      } else {
        assert WithKey(tail, m, k) == WithKey(s[1..], m, k);
      }
    }
  }

  /** Stability: among participants with the same metric, the sorted list keeps
      their input order. */
  lemma {:induction false} SortKeepsOrderOfEqualKeys(s: seq<Participant>, m: Metric, k: int)
    ensures WithKey(SortDesc(s, m), m, k) == WithKey(s, m, k)
  {
    if s != [] {
      SortKeepsOrderOfEqualKeys(s[1..], m, k);
      InsertWithKey(s[0], SortDesc(s[1..], m), m, k);
      WithKeyCons(s[0], s[1..], m, k);
      assert [s[0]] + s[1..] == s;
    }
  }

  // ---------------------------------------------------------------- sums

  /** `list.reduce((acc, p) => acc + key(p), 0)`. */
  function SumKey(s: seq<Participant>, m: Metric): int
  {
    if s == [] then 0 else Key(m, s[0]) + SumKey(s[1..], m)
  }

  lemma {:induction false} SumKeyAppend(a: seq<Participant>, b: seq<Participant>, m: Metric)
    ensures SumKey(a + b, m) == SumKey(a, m) + SumKey(b, m)
  {
    if a == [] {
      assert a + b == b;
    } else {
      SumKeyAppend(a[1..], b, m);
      assert (a + b)[1..] == a[1..] + b;
    }
  }

  lemma {:induction false} SumKeyInsert(x: Participant, s: seq<Participant>, m: Metric)
    ensures SumKey(Insert(x, s, m), m) == Key(m, x) + SumKey(s, m)
  {
    if s == [] || Key(m, x) >= Key(m, s[0]) {
      assert ([x] + s)[1..] == s;
    } else {
      SumKeyInsert(x, s[1..], m);
      assert ([s[0]] + Insert(x, s[1..], m))[1..] == Insert(x, s[1..], m);
    }
  }

  /** Sorting does not change the sum of the metric. */
  lemma {:induction false} SumKeySort(s: seq<Participant>, m: Metric)
    ensures SumKey(SortDesc(s, m), m) == SumKey(s, m)
  {
    if s != [] {
      SumKeySort(s[1..], m);
      SumKeyInsert(s[0], SortDesc(s[1..], m), m);
    }
  }

  // ---------------------------------------------------------------- the two rankings

  /** Number of rows in the first table part; the rest is the overflow. */
  const TopCount: nat := 30

  /** `{ ...p, total: p.r1 + p.r2 + p.r3 }`: a copy with the round sum as total. */
  function WithTotal(p: Participant): Participant
  {
    p.(total := p.r1 + p.r2 + p.r3)
  }

  /** `participants.map(WithTotal)`. */
  function WithTotals(ps: seq<Participant>): (qs: seq<Participant>)
    ensures |qs| == |ps|
    ensures forall i :: 0 <= i < |ps| ==> qs[i] == WithTotal(ps[i])
  {
    if ps == [] then [] else [WithTotal(ps[0])] + WithTotals(ps[1..])
  }

  /** One ranking: the first thirty, the overflow and the sum over the first
      thirty. */
  datatype View = View(top: seq<Participant>, rest: seq<Participant>, topSum: int)

  /** `slice(0, 30)`, `slice(30)` and the reduce over the first part. */
  function Cut(sorted: seq<Participant>, m: Metric): (v: View)
    ensures |v.top| == Min(TopCount, |sorted|) && v.top + v.rest == sorted
    ensures v.topSum == SumKey(v.top, m)
  {
    var n := Min(TopCount, |sorted|);
    View(sorted[..n], sorted[n..], SumKey(sorted[..n], m))
  }

  /** Both rankings of a season: the result of `getRankingData`. */
  datatype RankingData = RankingData(byFase: View, byTotal: View)

  function GetRankingData(participants: seq<Participant>): (r: RankingData)
    ensures |r.byFase.top| == Min(TopCount, |participants|)
    ensures |r.byFase.top| + |r.byFase.rest| == |participants|
    ensures |r.byTotal.top| == Min(TopCount, |participants|)
    ensures |r.byTotal.top| + |r.byTotal.rest| == |participants|
    ensures r.byFase.topSum == SumKey(r.byFase.top, ByFase)
    ensures r.byTotal.topSum == SumKey(r.byTotal.top, ByTotal)
  {
    RankingData(
      Cut(SortDesc(participants, ByFase), ByFase),
      Cut(SortDesc(WithTotals(participants), ByTotal), ByTotal))
  }

  /** Each ranking lists every participant once, in non-increasing order of its
      metric, keeping input order among equal metrics; the by-total ranking
      lists the copies with `total == r1 + r2 + r3`. */
  lemma RankingsAreStableSorts(participants: seq<Participant>, k: int)
    ensures var v := GetRankingData(participants).byFase;
            && multiset(v.top + v.rest) == multiset(participants)
            && Descending(v.top + v.rest, ByFase)
            && WithKey(v.top + v.rest, ByFase, k) == WithKey(participants, ByFase, k)
    ensures var v := GetRankingData(participants).byTotal;
            && multiset(v.top + v.rest) == multiset(WithTotals(participants))
            && Descending(v.top + v.rest, ByTotal)
            && WithKey(v.top + v.rest, ByTotal, k) == WithKey(WithTotals(participants), ByTotal, k)
            && (forall q :: q in v.top + v.rest ==> q.total == q.r1 + q.r2 + q.r3)
  {
    SortKeepsOrderOfEqualKeys(participants, ByFase, k);
    var totals := WithTotals(participants);
    SortKeepsOrderOfEqualKeys(totals, ByTotal, k);
    var all := SortDesc(totals, ByTotal);
    forall q | q in all ensures q.total == q.r1 + q.r2 + q.r3 {
      assert q in multiset(totals);
      var i :| 0 <= i < |totals| && totals[i] == q;
    }
  }

  /** The sum counts the first thirty only: it is the sum over all
      participants minus the overflow, and no overflow row ranks above a row
      of the first thirty. */
  lemma TopSumExcludesOverflow(participants: seq<Participant>)
    ensures var v := GetRankingData(participants).byFase;
            && v.topSum + SumKey(v.rest, ByFase) == SumKey(participants, ByFase)
            && (forall a, b :: a in v.top && b in v.rest ==> a.fase >= b.fase)
    ensures var v := GetRankingData(participants).byTotal;
            && v.topSum + SumKey(v.rest, ByTotal) == SumKey(WithTotals(participants), ByTotal)
            && (forall a, b :: a in v.top && b in v.rest ==> a.total >= b.total)
  {
    var f := GetRankingData(participants).byFase;
    SumKeyAppend(f.top, f.rest, ByFase);
    SumKeySort(participants, ByFase);
    TopDominatesRest(f.top, f.rest, ByFase);
    var t := GetRankingData(participants).byTotal;
    SumKeyAppend(t.top, t.rest, ByTotal);
    SumKeySort(WithTotals(participants), ByTotal);
    TopDominatesRest(t.top, t.rest, ByTotal);
  }

  lemma TopDominatesRest(top: seq<Participant>, rest: seq<Participant>, m: Metric)
    requires Descending(top + rest, m)
    ensures forall a, b :: a in top && b in rest ==> Key(m, a) >= Key(m, b)
  {
    forall a, b | a in top && b in rest ensures Key(m, a) >= Key(m, b) {
      var i :| 0 <= i < |top| && top[i] == a;
      var j :| 0 <= j < |rest| && rest[j] == b;
      assert (top + rest)[i] == a && (top + rest)[|top| + j] == b;
    }
  }

  // ---------------------------------------------------------------- rank column

  /** The two parts of a ranking table. */
  datatype Cohort = Top | Overflow

  /** The rank shown for row `i` of a part: `i + 1` in the first thirty,
      `30 + i + 1` in the overflow. */
  function DisplayedRank(c: Cohort, i: nat): nat
  {
    match c
    case Top => i + 1
    case Overflow => TopCount + i + 1
  }

  /** The rows of one table, each with the rank it shows. */
  function TableRows(v: View): seq<(nat, Participant)>
  {
    seq(|v.top|, i requires 0 <= i < |v.top| => (DisplayedRank(Top, i), v.top[i]))
    + seq(|v.rest|, i requires 0 <= i < |v.rest| => (DisplayedRank(Overflow, i), v.rest[i]))
  }

  /** Numbering is continuous across the cut: every row shows its position in
      the whole sorted list plus one. */
  lemma RanksContinueAcrossCut(sorted: seq<Participant>, m: Metric)
    ensures |TableRows(Cut(sorted, m))| == |sorted|
    ensures forall j :: 0 <= j < |sorted| ==> TableRows(Cut(sorted, m))[j] == (j + 1, sorted[j])
  {
    var v := Cut(sorted, m);
    var rows := TableRows(v);
    forall j | 0 <= j < |sorted| ensures rows[j] == (j + 1, sorted[j]) {
      if j < |v.top| {
        assert rows[j] == (j + 1, v.top[j]);
        assert sorted[j] == (v.top + v.rest)[j];
      } else {
        assert |v.top| == TopCount;
        assert rows[j] == (TopCount + (j - |v.top|) + 1, v.rest[j - |v.top|]);
        assert sorted[j] == (v.top + v.rest)[j];
      }
    }
  }

  // ---------------------------------------------------------------- evolution

  /** What the evolution column holds: a phase difference, or "-". */
  datatype Evolution = NoEvolution | Delta(d: int)

  predicate IsFirstNamed(ps: seq<Participant>, name: string, i: int)
  {
    0 <= i < |ps| && ps[i].name == name && forall j :: 0 <= j < i ==> ps[j].name != name
  }

  predicate HasNamed(ps: seq<Participant>, name: string)
  {
    exists i :: 0 <= i < |ps| && ps[i].name == name
  }

  /** `ps.find(p => p.name === name)`, as the index of what it finds. */
  function FindByName(ps: seq<Participant>, name: string): (r: Option<nat>)
    ensures r.Some? ==> IsFirstNamed(ps, name, r.value)
    ensures r.None? <==> !HasNamed(ps, name)
  {
    if ps == [] then None
    else if ps[0].name == name then Some(0)
    else
      match FindByName(ps[1..], name)
      case None => None
      case Some(i) => assert ps[i + 1] == ps[1..][i]; Some(i + 1)
  }

  /** `calculateEvolution(name, index)`: the phase of the first participant
      called `name` in season `index` minus that of the first one in season
      `index - 1`; "-" for the first season, for an index past the end, and
      when either season has nobody of that name. */
  function CalculateEvolution(seasons: seq<Season>, name: string, index: int): (e: Evolution)
    ensures e.NoEvolution? <==>
              || !(0 < index < |seasons|)
              || !HasNamed(seasons[index].participants, name)
              || !HasNamed(seasons[index - 1].participants, name)
    ensures 0 < index < |seasons| ==>
              (forall i, j {:trigger IsFirstNamed(seasons[index].participants, name, i),
                                     IsFirstNamed(seasons[index - 1].participants, name, j)} ::
                 IsFirstNamed(seasons[index].participants, name, i)
                 && IsFirstNamed(seasons[index - 1].participants, name, j)
                 ==> e == Delta(seasons[index].participants[i].fase
                                - seasons[index - 1].participants[j].fase))
  {
    if index <= 0 || |seasons| <= 1 then NoEvolution
    else if index >= |seasons| then NoEvolution
    else
      var current := seasons[index].participants;
      var previous := seasons[index - 1].participants;
      match (FindByName(current, name), FindByName(previous, name))
      case (Some(i), Some(j)) =>
        FirstNamedUnique(current, name, i);
        FirstNamedUnique(previous, name, j);
        Delta(current[i].fase - previous[j].fase)
      case _ => NoEvolution
  }

  lemma FirstNamedUnique(ps: seq<Participant>, name: string, i: int)
    requires IsFirstNamed(ps, name, i)
    ensures forall j :: IsFirstNamed(ps, name, j) ==> j == i
  {
  }

  /** CSS class of the evolution cell. */
  datatype Tone = Neutral | Positive | Negative

  datatype EvolutionCell = EvolutionCell(text: string, tone: Tone)

  /** The digits of a rendered evolution after its sign, if any. */
  function Unsigned(text: string): string
  {
    if text != [] && (text[0] == '+' || text[0] == '-') then text[1..] else text
  }

  /** `renderEvolution`: a positive difference is shown with a leading "+", any
      other number as itself, and a missing one as "-". */
  function RenderEvolution(e: Evolution): (c: EvolutionCell)
    ensures c.text == "-" <==> e.NoEvolution?
    ensures c.tone == Positive <==> e.Delta? && e.d > 0
    ensures c.tone == Negative <==> e.Delta? && e.d < 0
    ensures e.Delta? ==> |c.text| >= 1 && (c.text[0] == '+' <==> e.d > 0) && (c.text[0] == '-' <==> e.d < 0)
    ensures e.Delta? ==>
              && (forall i :: 0 <= i < |Unsigned(c.text)| ==> Text.IsDigit(Unsigned(c.text)[i]))
              && Text.DecimalValue(Unsigned(c.text)) == (if e.d < 0 then -e.d else e.d)
    ensures e.Delta? ==> Unsigned(c.text) == Text.NatToDecimal(if e.d < 0 then -e.d else e.d)
  {
    match e
    case NoEvolution => EvolutionCell("-", Neutral)
    case Delta(d) =>
      var magnitude: nat := if d < 0 then -d else d;
      Text.NatToDecimalRoundTrip(magnitude);
      var digits := Text.NatToDecimal(magnitude);
      assert digits[0] != '+' && digits[0] != '-';
      if d > 0 then
        assert ("+" + digits)[1..] == digits;
        EvolutionCell("+" + digits, Positive)
      else if d < 0 then
        assert ("-" + digits)[1..] == digits;
        EvolutionCell("-" + digits, Negative)
      else EvolutionCell(digits, Neutral)
  }
}
