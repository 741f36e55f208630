/**
 Advisory calibration over a corpus of outcome records: overall counts, per-agent slices in the order of
 an ordered map, and parts-per-thousand rates in 64-bit arithmetic.
 */
module Outcome {
  import opened Common
  import opened Orders

  const U64_MAX: nat := 0xffff_ffff_ffff_ffff

  datatype RunOutcome = Merged | Reverted | Incident | ShippedNoRegress

  /** What calibration reads of a record: who ran it and the outcomes it was labelled with. */
  datatype Record = Record(agent: Option<string>, labels: seq<RunOutcome>)

  datatype AgentCalibration = AgentCalibration(
    agent: string, labeled: nat, shipped: nat, regressed: nat, shipPermille: nat)

  datatype Calibration = Calibration(
    labeled: nat, shipped: nat, regressed: nat, passedAndRegressed: nat, shipPermille: nat,
    byAgent: seq<AgentCalibration>)

  datatype Tally = Tally(labeled: nat, shipped: nat, regressed: nat, passedAndRegressed: nat) {
    /** Folds one labelled run's classification in. */
    function Add(positive: bool, negative: bool): Tally {
      Tally(
        labeled + 1,
        if positive && !negative then shipped + 1 else shipped,
        if negative then regressed + 1 else regressed,
        if positive && negative then passedAndRegressed + 1 else passedAndRegressed)
    }
  }

  predicate IsPositive(v: RunOutcome) { v.Merged? || v.ShippedNoRegress? }

  /** Some label is merged or shipped without regression. */
  ghost predicate HasPositive(r: Record) {
    exists i :: 0 <= i < |r.labels| && IsPositive(r.labels[i])
  }

  /** Some label is reverted or incident. */
  ghost predicate HasNegative(r: Record) {
    exists i :: 0 <= i < |r.labels| && !IsPositive(r.labels[i])
  }

  method Classify(record: Record) returns (positive: bool, negative: bool)
    ensures positive <==> HasPositive(record)
    ensures negative <==> HasNegative(record)
  {
    positive, negative := false, false;
    for i := 0 to |record.labels|
      invariant positive <==> exists k :: 0 <= k < i && IsPositive(record.labels[k])
      invariant negative <==> exists k :: 0 <= k < i && !IsPositive(record.labels[k])
    {
      match record.labels[i]
      case Merged | ShippedNoRegress => positive := true;
      case Reverted | Incident => negative := true;
    }
  }

  // ----- parts per thousand -----

  function SaturatingMul(a: nat, b: nat): nat {
    if a * b > U64_MAX then U64_MAX else a * b
  }

  function Permille(num: nat, den: nat): nat {
    if den == 0 then 0 else SaturatingMul(num, 1000) / den
  }

  lemma QuotientBelow(x: nat, den: nat, k: nat)
    requires den > 0
    ensures x < k * den ==> x / den < k
    ensures x >= k * den ==> x / den >= k
  {
    var q := x / den;
    assert q * den <= x < q * den + den;
    if q >= k {
      assert q * den >= k * den;
    } else {
      assert (q + 1) * den <= k * den;
    }
  }

  /** A share of a population is at most 1000 per mille even where the product saturates, and where it
      does not, only the whole population is 1000. */
  lemma PermilleOfShare(num: nat, den: nat)
    requires num <= den
    ensures Permille(num, den) <= 1000
    ensures (den > 0 && num * 1000 <= U64_MAX) ==> (Permille(num, den) == 1000 <==> num == den)
  {
    if den > 0 {
      QuotientBelow(SaturatingMul(num, 1000), den, 1001);
      QuotientBelow(SaturatingMul(num, 1000), den, 1000);
    }
  }

  /** The share per mille, rounded down: 0 of nothing, and less only where a thousand times the count does not fit in
      64 bits, and is cut. */
  lemma PermilleIs(num: nat, den: nat, q: nat)
    requires q == Permille(num, den)
    ensures den == 0 ==> q == 0
    ensures den > 0 && num * 1000 <= 0xffff_ffff_ffff_ffff ==> q * den <= num * 1000 < (q + 1) * den
    ensures den > 0 && num * 1000 > 0xffff_ffff_ffff_ffff ==> q * den <= 0xffff_ffff_ffff_ffff < (q + 1) * den
  {
    if den > 0 {
      var x := SaturatingMul(num, 1000);
      assert q == x / den;
      assert q * den <= x < q * den + den;
      assert (q + 1) * den == q * den + den;
    }
  }

  // ----- what the counts mean -----

  datatype Class = Labeled | Shipped | Regressed | PassedAndRegressed

  /** Whether a run counts towards a class.  An unlabelled run counts towards none. */
  ghost predicate Falls(r: Record, class_: Class) {
    match class_
    case Labeled => r.labels != []
    case Shipped => HasPositive(r) && !HasNegative(r)
    case Regressed => HasNegative(r)
    case PassedAndRegressed => HasPositive(r) && HasNegative(r)
  }

  function AgentOf(r: Record): string {
    match r.agent
    case Some(a) => a
    case None => "unattributed"
  }

  /** The number of runs in a class, of one agent or (None) of all. */
  ghost function Count(class_: Class, who: Option<string>, rs: seq<Record>): nat {
    if rs == [] then 0
    else Count(class_, who, rs[..|rs| - 1]) + One(class_, who, rs[|rs| - 1])
  }

  ghost function One(class_: Class, who: Option<string>, r: Record): nat {
    if Falls(r, class_) && (who.None? || who.value == AgentOf(r)) then 1 else 0
  }

  lemma CountSnoc(class_: Class, who: Option<string>, front: seq<Record>, r: Record)
    ensures Count(class_, who, front + [r]) == Count(class_, who, front) + One(class_, who, r)
  {
    assert (front + [r])[..|front|] == front;
  }

  ghost function TallyOf(who: Option<string>, rs: seq<Record>): Tally {
    Tally(
      Count(Labeled, who, rs), Count(Shipped, who, rs),
      Count(Regressed, who, rs), Count(PassedAndRegressed, who, rs))
  }

  /** The agents of the labelled runs. */
  ghost function Agents(rs: seq<Record>): set<string> {
    set r | r in rs && Falls(r, Labeled) :: AgentOf(r)
  }

  ghost function AgentRow(agent: string, rs: seq<Record>): AgentCalibration {
    var t := TallyOf(Some(agent), rs);
    AgentCalibration(agent, t.labeled, t.shipped, t.regressed, Permille(t.shipped, t.labeled))
  }

  ghost function AgentRows(names: seq<string>, rs: seq<Record>): seq<AgentCalibration> {
    seq(|names|, i requires 0 <= i < |names| => AgentRow(names[i], rs))
  }

  ghost function Names(rs: seq<Record>): seq<string> { InOrder(Agents(rs)) }

  ghost function CalibrationOf(rs: seq<Record>): Calibration {
    var t := TallyOf(None, rs);
    Calibration(
      t.labeled, t.shipped, t.regressed, t.passedAndRegressed, Permille(t.shipped, t.labeled),
      AgentRows(Names(rs), rs))
  }

  // ----- the fold computes them -----

  /** One more run, tallied. */
  lemma TallySnoc(who: Option<string>, front: seq<Record>, r: Record)
    ensures TallyOf(who, front + [r])
         == if r.labels == [] || (who.Some? && who.value != AgentOf(r)) then TallyOf(who, front)
            else TallyOf(who, front).Add(HasPositive(r), HasNegative(r))
  {
    CountSnoc(Labeled, who, front, r);
    CountSnoc(Shipped, who, front, r);
    CountSnoc(Regressed, who, front, r);
    CountSnoc(PassedAndRegressed, who, front, r);
  }

  /** An agent without labelled runs has an empty tally. */
  lemma {:induction false} AbsentAgent(agent: string, rs: seq<Record>)
    requires agent !in Agents(rs)
    ensures TallyOf(Some(agent), rs) == Tally(0, 0, 0, 0)
  {
    if rs != [] {
      var front, r := rs[..|rs| - 1], rs[|rs| - 1];
      assert rs == front + [r];
      AbsentAgent(agent, front);
      TallySnoc(Some(agent), front, r);
    }
  }

  /** The per-agent map after the runs rs. */
  ghost predicate Tallied(perAgent: map<string, Tally>, rs: seq<Record>) {
    && perAgent.Keys == Agents(rs)
    && forall a :: a in perAgent ==> perAgent[a] == TallyOf(Some(a), rs)
  }

  lemma TalliedSkips(perAgent: map<string, Tally>, front: seq<Record>, r: Record)
    requires Tallied(perAgent, front) && r.labels == []
    ensures Tallied(perAgent, front + [r])
  {
    assert Agents(front + [r]) == Agents(front);
    forall a | a in perAgent ensures perAgent[a] == TallyOf(Some(a), front + [r]) {
      TallySnoc(Some(a), front, r);
    }
  }

  lemma AgentsSnoc(front: seq<Record>, r: Record)
    requires r.labels != []
    ensures Agents(front + [r]) == Agents(front) + {AgentOf(r)}
  {
    assert r in front + [r] && Falls(r, Labeled);
    forall x | x in front ensures x in front + [r] {
    }
  }

  lemma TalliedAdds(perAgent: map<string, Tally>, front: seq<Record>, r: Record, t: Tally, next: map<string, Tally>)
    requires Tallied(perAgent, front) && r.labels != []
    requires t == if AgentOf(r) in perAgent then perAgent[AgentOf(r)] else Tally(0, 0, 0, 0)
    requires next == perAgent[AgentOf(r) := t.Add(HasPositive(r), HasNegative(r))]
    ensures Tallied(next, front + [r])
  {
    AgentsSnoc(front, r);
    if AgentOf(r) !in perAgent {
      AbsentAgent(AgentOf(r), front);
    }
    forall a | a in next ensures next[a] == TallyOf(Some(a), front + [r]) {
      TallySnoc(Some(a), front, r);
    }
  }

  /** The fold over the records. */
  method TallyRuns(records: seq<Record>) returns (overall: Tally, perAgent: map<string, Tally>)
    ensures overall == TallyOf(None, records)
    ensures Tallied(perAgent, records)
  {
    overall, perAgent := Tally(0, 0, 0, 0), map[];
    for i := 0 to |records|
      invariant overall == TallyOf(None, records[..i])
      invariant Tallied(perAgent, records[..i])
    {
      var record := records[i];
      ghost var seen := records[..i];
      assert records[..i + 1] == seen + [record];
      TallySnoc(None, seen, record);
      if record.labels == [] {
        TalliedSkips(perAgent, seen, record);
        continue;
      }
      var positive, negative := Classify(record);
      overall := overall.Add(positive, negative);
      var agent := AgentOf(record);
      var tally := if agent in perAgent then perAgent[agent] else Tally(0, 0, 0, 0);
      var next := perAgent[agent := tally.Add(positive, negative)];
      TalliedAdds(perAgent, seen, record, tally, next);
      perAgent := next;
    }
    assert records[..|records|] == records;
  }

  lemma RowOf(perAgent: map<string, Tally>, rs: seq<Record>, name: string, t: Tally)
    requires Tallied(perAgent, rs) && name in perAgent && t == perAgent[name]
    ensures AgentRow(name, rs)
         == AgentCalibration(name, t.labeled, t.shipped, t.regressed, Permille(t.shipped, t.labeled))
  {
  }

  lemma RowsSnoc(names: seq<string>, name: string, rs: seq<Record>)
    ensures AgentRows(names + [name], rs) == AgentRows(names, rs) + [AgentRow(name, rs)]
  {
  }

  /** One row per name, read from the map. */
  method EmitRows(names: seq<string>, perAgent: map<string, Tally>, ghost records: seq<Record>)
    returns (rows: seq<AgentCalibration>)
    requires Tallied(perAgent, records)
    requires forall name :: name in names ==> name in perAgent
    ensures rows == AgentRows(names, records)
  {
    rows := [];
    for j := 0 to |names|
      invariant rows == AgentRows(names[..j], records)
    {
      var name := names[j];
      assert name in names;
      var t := perAgent[name];
      RowOf(perAgent, records, name, t);
      assert names[..j + 1] == names[..j] + [name];
      RowsSnoc(names[..j], name, records);
      rows := rows + [AgentCalibration(name, t.labeled, t.shipped, t.regressed, Permille(t.shipped, t.labeled))];
    }
    assert names[..|names|] == names;
  }

  method Calibrate(records: seq<Record>) returns (c: Calibration)
    ensures c == CalibrationOf(records)
  {
    var overall, perAgent := TallyRuns(records);
    var names := NamesInOrder(perAgent.Keys);
    var rows := EmitRows(names, perAgent, records);
    c := Calibration(
      overall.labeled, overall.shipped, overall.regressed, overall.passedAndRegressed,
      Permille(overall.shipped, overall.labeled), rows);
  }

  // ----- what calibration promises -----

  /** A labelled run ships or regresses, never both. */
  lemma FallsOnce(r: Record)
    ensures Falls(r, Labeled) <==> Falls(r, Shipped) || Falls(r, Regressed)
    ensures !(Falls(r, Shipped) && Falls(r, Regressed))
    ensures Falls(r, PassedAndRegressed) ==> Falls(r, Regressed)
  {
    if r.labels != [] {
      assert IsPositive(r.labels[0]) || !IsPositive(r.labels[0]);
    }
  }

  lemma {:induction false} TallyAddsUp(who: Option<string>, rs: seq<Record>)
    ensures Count(Labeled, who, rs) == Count(Shipped, who, rs) + Count(Regressed, who, rs)
    ensures Count(PassedAndRegressed, who, rs) <= Count(Regressed, who, rs)
    ensures Count(Labeled, who, rs) <= |rs|
  {
    if rs != [] {
      TallyAddsUp(who, rs[..|rs| - 1]);
      FallsOnce(rs[|rs| - 1]);
    }
  }

  /** A column of the per-agent rows, added up. */
  ghost function Column(class_: Class, rows: seq<AgentCalibration>): nat
    requires !class_.PassedAndRegressed?
  {
    if rows == [] then 0 else Column(class_, rows[..|rows| - 1]) + Field(class_, rows[|rows| - 1])
  }

  ghost function Field(class_: Class, row: AgentCalibration): nat
    requires !class_.PassedAndRegressed?
  {
    match class_
    case Labeled => row.labeled
    case Shipped => row.shipped
    case Regressed => row.regressed
  }

  lemma ColumnSnoc(class_: Class, names: seq<string>, name: string, rs: seq<Record>)
    requires !class_.PassedAndRegressed?
    ensures Column(class_, AgentRows(names + [name], rs))
         == Column(class_, AgentRows(names, rs)) + Count(class_, Some(name), rs)
  {
    RowsSnoc(names, name, rs);
    assert (AgentRows(names, rs) + [AgentRow(name, rs)])[..|names|] == AgentRows(names, rs);
  }

  lemma {:induction false} ColumnOfNoRuns(class_: Class, names: seq<string>)
    requires !class_.PassedAndRegressed?
    ensures Column(class_, AgentRows(names, [])) == 0
  {
    if names != [] {
      var front, name := names[..|names| - 1], names[|names| - 1];
      assert names == front + [name];
      ColumnOfNoRuns(class_, front);
      ColumnSnoc(class_, front, name, []);
    }
  }

  /** One more run moves a column by one when its agent is among the distinct names. */
  lemma {:induction false} ColumnStep(class_: Class, names: seq<string>, rs: seq<Record>, r: Record)
    requires !class_.PassedAndRegressed? && Distinct(names)
    ensures Column(class_, AgentRows(names, rs + [r]))
         == Column(class_, AgentRows(names, rs)) + (if AgentOf(r) in names then One(class_, None, r) else 0)
  {
    if names != [] {
      var front, name := names[..|names| - 1], names[|names| - 1];
      assert names == front + [name];
      ColumnStep(class_, front, rs, r);
      ColumnSnoc(class_, front, name, rs);
      ColumnSnoc(class_, front, name, rs + [r]);
      CountSnoc(class_, Some(name), rs, r);
    } else {
      assert AgentRows(names, rs) == [] == AgentRows(names, rs + [r]);
    }
  }

  lemma {:induction false} ColumnIsCount(class_: Class, names: seq<string>, rs: seq<Record>)
    requires !class_.PassedAndRegressed? && Distinct(names)
    requires forall r :: r in rs && Falls(r, Labeled) ==> AgentOf(r) in names
    ensures Column(class_, AgentRows(names, rs)) == Count(class_, None, rs)
  {
    if rs == [] {
      ColumnOfNoRuns(class_, names);
    } else {
      var front, r := rs[..|rs| - 1], rs[|rs| - 1];
      assert rs == front + [r] && r in rs;
      ColumnIsCount(class_, names, front);
      ColumnStep(class_, names, front, r);
      CountSnoc(class_, None, front, r);
      FallsOnce(r);
    }
  }

  // ----- the counts, spelled out -----

  ghost predicate HasOneOf(r: Record, outcomes: set<RunOutcome>) {
    exists v :: v in r.labels && v in outcomes
  }

  ghost predicate IsRunOf(r: Record, who: Option<string>) {
    who.None? || r.agent == who || (r.agent.None? && who.value == "unattributed")
  }

  /** The positions of the runs with a label, of an agent or (None) of all. */
  ghost function LabeledRuns(rs: seq<Record>, who: Option<string>): set<nat> {
    set i: nat | i < |rs| && IsRunOf(rs[i], who) && rs[i].labels != []
  }

  /** Of those labelled merged or shipped without regression. */
  ghost function GoodRuns(rs: seq<Record>, who: Option<string>): set<nat> {
    set i: nat | i < |rs| && IsRunOf(rs[i], who) && HasOneOf(rs[i], {Merged, ShippedNoRegress})
  }

  /** Of those labelled reverted or incident. */
  ghost function BadRuns(rs: seq<Record>, who: Option<string>): set<nat> {
    set i: nat | i < |rs| && IsRunOf(rs[i], who) && HasOneOf(rs[i], {Reverted, Incident})
  }

  lemma FallsMeans(r: Record)
    ensures HasPositive(r) <==> HasOneOf(r, {Merged, ShippedNoRegress})
    ensures HasNegative(r) <==> HasOneOf(r, {Reverted, Incident})
  {
    forall v | v in r.labels ensures if v in {Merged, ShippedNoRegress} then HasPositive(r) else HasNegative(r) {
      var i :| 0 <= i < |r.labels| && r.labels[i] == v;
      assert IsPositive(r.labels[i]) <==> v in {Merged, ShippedNoRegress};
    }
  }

  /** The runs a class counts. */
  ghost function RunsOf(class_: Class, rs: seq<Record>, who: Option<string>): set<nat> {
    match class_
    case Labeled => LabeledRuns(rs, who)
    case Shipped => GoodRuns(rs, who) - BadRuns(rs, who)
    case Regressed => BadRuns(rs, who)
    case PassedAndRegressed => GoodRuns(rs, who) * BadRuns(rs, who)
  }

  lemma RunsOfAt(class_: Class, rs: seq<Record>, who: Option<string>, i: nat)
    requires i < |rs|
    ensures i in RunsOf(class_, rs, who) <==> One(class_, who, rs[i]) == 1
  {
    FallsMeans(rs[i]);
  }

  lemma RunsWithin(class_: Class, rs: seq<Record>, who: Option<string>, i: nat)
    requires i in RunsOf(class_, rs, who)
    ensures i < |rs|
  {
  }

  lemma RunsSnoc(class_: Class, front: seq<Record>, r: Record, who: Option<string>)
    ensures RunsOf(class_, front + [r], who)
         == RunsOf(class_, front, who) + if One(class_, who, r) == 1 then {|front|} else {}
  {
    var rs, n := front + [r], |front|;
    var more := RunsOf(class_, front, who) + if One(class_, who, r) == 1 then {n} else {};
    forall i: nat ensures i in RunsOf(class_, rs, who) <==> i in more {
      if i <= n {
        RunsOfAt(class_, rs, who, i);
      }
      if i < n {
        RunsOfAt(class_, front, who, i);
      }
      if i in RunsOf(class_, rs, who) {
        RunsWithin(class_, rs, who, i);
      }
      if i in RunsOf(class_, front, who) {
        RunsWithin(class_, front, who, i);
      }
    }
  }

  lemma {:induction false} CountIs(class_: Class, who: Option<string>, rs: seq<Record>)
    ensures Count(class_, who, rs) == |RunsOf(class_, rs, who)|
  {
    if rs == [] {
      assert RunsOf(class_, rs, who) == {};
    } else {
      var front, r := rs[..|rs| - 1], rs[|rs| - 1];
      assert rs == front + [r];
      CountIs(class_, who, front);
      RunsSnoc(class_, front, r, who);
      if |front| in RunsOf(class_, front, who) {
        RunsWithin(class_, front, who, |front|);
      }
    }
  }

  lemma TallyIs(who: Option<string>, rs: seq<Record>)
    ensures
      var t := TallyOf(who, rs);
      && t.labeled == |LabeledRuns(rs, who)| && t.shipped == |GoodRuns(rs, who) - BadRuns(rs, who)|
      && t.regressed == |BadRuns(rs, who)| && t.passedAndRegressed == |GoodRuns(rs, who) * BadRuns(rs, who)|
  {
    CountIs(Labeled, who, rs);
    CountIs(Shipped, who, rs);
    CountIs(Regressed, who, rs);
    CountIs(PassedAndRegressed, who, rs);
  }

  /** What the calibration says of all runs, and in each slice of those of its agent. */
  lemma CalibrationIs(rs: seq<Record>, c: Calibration)
    requires c == CalibrationOf(rs)
    ensures c.labeled == |LabeledRuns(rs, None)| && c.shipped == |GoodRuns(rs, None) - BadRuns(rs, None)|
    ensures c.regressed == |BadRuns(rs, None)| && c.passedAndRegressed == |GoodRuns(rs, None) * BadRuns(rs, None)|
    ensures c.shipPermille == Permille(c.shipped, c.labeled)
    ensures forall i :: 0 <= i < |c.byAgent| ==>
              var row, who := c.byAgent[i], Some(c.byAgent[i].agent);
              && row.labeled == |LabeledRuns(rs, who)| && row.shipped == |GoodRuns(rs, who) - BadRuns(rs, who)|
              && row.regressed == |BadRuns(rs, who)| && row.shipPermille == Permille(row.shipped, row.labeled)
  {
    TallyIs(None, rs);
    forall i | 0 <= i < |c.byAgent|
      ensures
        var row, who := c.byAgent[i], Some(c.byAgent[i].agent);
        && row.labeled == |LabeledRuns(rs, who)| && row.shipped == |GoodRuns(rs, who) - BadRuns(rs, who)|
        && row.regressed == |BadRuns(rs, who)| && row.shipPermille == Permille(row.shipped, row.labeled)
    {
      TallyIs(Some(c.byAgent[i].agent), rs);
    }
  }

  lemma NamesAreAgents(rs: seq<Record>)
    ensures Distinct(Names(rs)) && Sorted(StringLe, Names(rs))
    ensures forall a :: a in Names(rs) <==> a in Agents(rs)
  {
    InOrderElements(Agents(rs));
  }

  /** Every column of the per-agent slices adds up to the overall count, over strictly increasing names. */
  lemma SlicesAddUp(rs: seq<Record>, c: Calibration)
    requires c == CalibrationOf(rs)
    ensures Column(Labeled, c.byAgent) == c.labeled
    ensures Column(Shipped, c.byAgent) == c.shipped
    ensures Column(Regressed, c.byAgent) == c.regressed
    ensures forall i, j :: 0 <= i < j < |c.byAgent| ==>
              StringLe(c.byAgent[i].agent, c.byAgent[j].agent) && c.byAgent[i].agent != c.byAgent[j].agent
  {
    NamesAreAgents(rs);
    ColumnIsCount(Labeled, Names(rs), rs);
    ColumnIsCount(Shipped, Names(rs), rs);
    ColumnIsCount(Regressed, Names(rs), rs);
  }

  /** A slice exists exactly for the agents with a labelled run, so no slice is empty. */
  lemma SlicesAreAgents(rs: seq<Record>, c: Calibration, agent: string)
    requires c == CalibrationOf(rs)
    ensures (exists i :: 0 <= i < |c.byAgent| && c.byAgent[i].agent == agent)
       <==> exists r :: r in rs && r.labels != [] && AgentOf(r) == agent
  {
    NamesAreAgents(rs);
    if i :| 0 <= i < |c.byAgent| && c.byAgent[i].agent == agent {
      assert Names(rs)[i] in Agents(rs);
    }
    if r :| r in rs && r.labels != [] && AgentOf(r) == agent {
      assert Falls(r, Labeled);
      assert agent in Agents(rs);
      var i :| 0 <= i < |Names(rs)| && Names(rs)[i] == agent;
      assert c.byAgent[i].agent == agent;
    }
  }

  /** The counts are consistent and every rate is at most 1000. */
  lemma CountsAreConsistent(rs: seq<Record>, c: Calibration)
    requires c == CalibrationOf(rs)
    ensures c.labeled == c.shipped + c.regressed
    ensures c.passedAndRegressed <= c.regressed
    ensures c.shipPermille <= 1000
    ensures forall i :: 0 <= i < |c.byAgent| ==>
              c.byAgent[i].labeled == c.byAgent[i].shipped + c.byAgent[i].regressed
              && c.byAgent[i].shipPermille <= 1000
  {
    TallyAddsUp(None, rs);
    PermilleOfShare(c.shipped, c.labeled);
    forall i | 0 <= i < |c.byAgent|
      ensures c.byAgent[i].labeled == c.byAgent[i].shipped + c.byAgent[i].regressed
      ensures c.byAgent[i].shipPermille <= 1000
    {
      TallyAddsUp(Some(Names(rs)[i]), rs);
      PermilleOfShare(c.byAgent[i].shipped, c.byAgent[i].labeled);
    }
  }

  // ----- the order of the records does not matter -----

  lemma {:induction false} CountSplits(class_: Class, who: Option<string>, a: seq<Record>, b: seq<Record>)
    ensures Count(class_, who, a + b) == Count(class_, who, a) + Count(class_, who, b)
    decreases |b|
  {
    if b == [] {
      assert a + b == a;
    } else {
      var front, r := b[..|b| - 1], b[|b| - 1];
      assert b == front + [r] && a + b == (a + front) + [r];
      CountSplits(class_, who, a, front);
      CountSnoc(class_, who, front, r);
      CountSnoc(class_, who, a + front, r);
    }
  }

  lemma {:induction false} CountForgetsOrder(class_: Class, who: Option<string>, a: seq<Record>, b: seq<Record>)
    requires multiset(a) == multiset(b)
    ensures Count(class_, who, a) == Count(class_, who, b)
    decreases |a|
  {
    if a == [] {
      assert |b| == |multiset(b)| == 0;
    } else {
      var front, r := a[..|a| - 1], a[|a| - 1];
      assert a == front + [r];
      assert r in multiset(b);
      var left, right := SplitAt(b, r);
      FrontOut(a, front, r);
      MiddleOut(b, left, r, right);
      CountForgetsOrder(class_, who, front, left + right);
      CountSnoc(class_, who, front, r);
      CountSplits(class_, who, left, right);
      CountSplits(class_, who, left + [r], right);
      CountSnoc(class_, who, left, r);
    }
  }

  lemma AgentsForgetOrder(a: seq<Record>, b: seq<Record>)
    requires multiset(a) == multiset(b)
    ensures Agents(a) == Agents(b)
  {
    forall r ensures r in a <==> r in b {
      assert r in a <==> r in multiset(a);
    }
  }

  lemma TallyForgetsOrder(who: Option<string>, a: seq<Record>, b: seq<Record>)
    requires multiset(a) == multiset(b)
    ensures TallyOf(who, a) == TallyOf(who, b)
  {
    CountForgetsOrder(Labeled, who, a, b);
    CountForgetsOrder(Shipped, who, a, b);
    CountForgetsOrder(Regressed, who, a, b);
    CountForgetsOrder(PassedAndRegressed, who, a, b);
  }

  /** Reordering the corpus changes nothing. */
  lemma CalibrationForgetsOrder(a: seq<Record>, b: seq<Record>)
    requires multiset(a) == multiset(b)
    ensures CalibrationOf(a) == CalibrationOf(b)
  {
    AgentsForgetOrder(a, b);
    TallyForgetsOrder(None, a, b);
    var names := Names(a);
    forall i | 0 <= i < |names| ensures AgentRow(names[i], a) == AgentRow(names[i], b) {
      TallyForgetsOrder(Some(names[i]), a, b);
    }
    assert AgentRows(names, a) == AgentRows(names, b);
  }
}
