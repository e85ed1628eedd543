/** plus_one_week and minus_one_week (resource.py:39-56): the end date
    moves by one week and the week counter by one, through two writes. */
module LedgerShift {
  import opened Outcomes
  import opened Calendar
  import opened LedgerModel
  import opened LedgerOps

  /** A successful write stores the rewritten record in place of the old
      one and leaves the other records as they were. */
  lemma WriteStores(t: Tables, id: nat, c: Changes)
    requires DatesValid(t.resources) && Find(t.resources, id).Some? && ChangesGiven(c)
    ensures var r := Write(t, id, c);
      r.Ok? ==>
        && WriteCheck(Find(t.resources, id).value, c).Ok?
        && Find(r.value.resources, id) == Some(Rewritten(Find(t.resources, id).value, c))
        && forall j :: j != id ==> Find(r.value.resources, j) == Find(t.resources, j)
  {
    var old_ := Find(t.resources, id).value;
    if Write(t, id, c).Ok? {
      WriteIs(t, id, c, false);
      var res := Rewritten(old_, c);
      ReconcileKeepsResources(t.(resources := Replace(t.resources, res)), res, false);
      ReplaceFind(t.resources, res);
    }
  }

  /** plus_one_week is its two writes. */
  lemma PlusIs(t: Tables, id: nat)
    requires DatesValid(t.resources) && Find(t.resources, id).Some?
    ensures var r := Find(t.resources, id).value;
      var w1 := Write(t, id, EndTo(AddDays(r.end, 7)));
      PlusOneWeek(t, id) == if w1.Err? then Err(w1.msg) else Write(w1.value, id, CounterTo(r.weeksToBeAdded + 1))
  {
    ShiftSpec(t, id, 7, 1);
  }

  /** minus_one_week is its two writes, below the date range check. */
  lemma MinusIs(t: Tables, id: nat)
    requires DatesValid(t.resources) && Find(t.resources, id).Some?
    ensures var r := Find(t.resources, id).value;
      MinusOneWeek(t, id) ==
        if r.end.day - 7 < 1 then Err("date value out of range")
        else
          var w1 := Write(t, id, EndTo(AddDays(r.end, -7)));
          if w1.Err? then Err(w1.msg) else Write(w1.value, id, CounterTo(r.weeksToBeAdded - 1))
  {
    if Find(t.resources, id).value.end.day - 7 >= 1 {
      ShiftSpec(t, id, -7, -1);
    }
  }

  /** plus_one_week: on success the end date is seven days later, the
      week counter one higher, and every other field and every other
      record as it was. */
  lemma PlusOneWeekResult(t: Tables, id: nat)
    requires DatesValid(t.resources) && Find(t.resources, id).Some?
    ensures var r := Find(t.resources, id).value;
      var p := PlusOneWeek(t, id);
      p.Ok? ==>
        && Find(p.value.resources, id) == Some(r.(end := AddDays(r.end, 7), weeksToBeAdded := r.weeksToBeAdded + 1))
        && forall j :: j != id ==> Find(p.value.resources, j) == Find(t.resources, j)
  {
    var r := Find(t.resources, id).value;
    PlusIs(t, id);
    var c1 := EndTo(AddDays(r.end, 7));
    var c2 := CounterTo(r.weeksToBeAdded + 1);
    var w1 := Write(t, id, c1);
    WriteStores(t, id, c1);
    if w1.Ok? {
      var t1 := w1.value;
      var r1 := Rewritten(r, c1);
      assert r1 == r.(end := AddDays(r.end, 7));
      assert Find(t1.resources, id) == Some(r1);
      var w2 := Write(t1, id, c2);
      assert PlusOneWeek(t, id) == w2;
      WriteStores(t1, id, c2);
      if w2.Ok? {
        assert Rewritten(r1, c2) == r.(end := AddDays(r.end, 7), weeksToBeAdded := r.weeksToBeAdded + 1);
      }
    }
  }

  /** minus_one_week refuses: a date before 1 January of year 1 is out of
      range, and an end before the start is refused with the date message. */
  lemma MinusOneWeekRefused(t: Tables, id: nat)
    requires DatesValid(t.resources) && Find(t.resources, id).Some?
    ensures var r := Find(t.resources, id).value;
      var m := MinusOneWeek(t, id);
      && (r.end.day - 7 < 1 ==> m == Err("date value out of range"))
      && (r.end.day - 7 >= 1 && !LessEq(r.start, AddDays(r.end, -7)) ==> m == Err("Start date must be before end date"))
  {
    MinusIs(t, id);
  }

  /** minus_one_week: on success the end date is seven days earlier, the
      week counter one lower, and every other field and every other record
      as it was. */
  lemma MinusOneWeekResult(t: Tables, id: nat)
    requires DatesValid(t.resources) && Find(t.resources, id).Some?
    ensures var r := Find(t.resources, id).value;
      var m := MinusOneWeek(t, id);
      m.Ok? ==>
        && Find(m.value.resources, id) == Some(r.(end := AddDays(r.end, -7), weeksToBeAdded := r.weeksToBeAdded - 1))
        && forall j :: j != id ==> Find(m.value.resources, j) == Find(t.resources, j)
  {
    var r := Find(t.resources, id).value;
    MinusIs(t, id);
    if r.end.day - 7 >= 1 {
      var c1 := EndTo(AddDays(r.end, -7));
      WriteStores(t, id, c1);
      var w1 := Write(t, id, c1);
      if w1.Ok? {
        var c2 := CounterTo(r.weeksToBeAdded - 1);
        WriteStores(w1.value, id, c2);
      }
    }
  }

  /** minus_one_week after plus_one_week, when both succeed, restores the
      resource record. */
  lemma PlusThenMinus(t: Tables, id: nat)
    requires DatesValid(t.resources) && Find(t.resources, id).Some?
    ensures var p := PlusOneWeek(t, id);
      p.Ok? && MinusOneWeek(p.value, id).Ok? ==>
        Find(MinusOneWeek(p.value, id).value.resources, id) == Find(t.resources, id)
  {
    var p := PlusOneWeek(t, id);
    PlusOneWeekResult(t, id);
    if p.Ok? {
      MinusOneWeekResult(p.value, id);
    }
  }

  /** A write keeps the invariants, so two in a row do; capacity, when
      neither write names an employee. */
  lemma ShiftKeeps(t: Tables, id: nat, c1: Changes, c2: Changes)
    requires Valid(t) && Find(t.resources, id).Some? && ChangesGiven(c1) && ChangesGiven(c2)
    ensures var w1 := Write(t, id, c1);
      w1.Ok? && Write(w1.value, id, c2).Ok? ==>
        var t2 := Write(w1.value, id, c2).value;
        Valid(t2) && (Synced(t) ==> Synced(t2))
        && (Capacity(t) && c1.employee.None? && c2.employee.None? ==> Capacity(t2))
  {
    var w1 := Write(t, id, c1);
    WriteKeepsInvariants(t, id, c1);
    if w1.Ok? {
      WriteKeepsInvariants(w1.value, id, c2);
    }
  }

  /** plus_one_week keeps the tables valid, keeps every employee within
      100 % in every week, and keeps rows not changed by hand at their base
      workload. */
  lemma PlusOneWeekKeeps(t: Tables, id: nat)
    requires Valid(t) && Find(t.resources, id).Some?
    ensures var p := PlusOneWeek(t, id);
      p.Ok? ==> Valid(p.value) && (Capacity(t) ==> Capacity(p.value)) && (Synced(t) ==> Synced(p.value))
  {
    var r := Find(t.resources, id).value;
    PlusIs(t, id);
    ShiftKeeps(t, id, EndTo(AddDays(r.end, 7)), CounterTo(r.weeksToBeAdded + 1));
  }

  /** The same for minus_one_week. */
  lemma MinusOneWeekKeeps(t: Tables, id: nat)
    requires Valid(t) && Find(t.resources, id).Some?
    ensures var m := MinusOneWeek(t, id);
      m.Ok? ==> Valid(m.value) && (Capacity(t) ==> Capacity(m.value)) && (Synced(t) ==> Synced(m.value))
  {
    var r := Find(t.resources, id).value;
    MinusIs(t, id);
    if r.end.day - 7 >= 1 {
      ShiftKeeps(t, id, EndTo(AddDays(r.end, -7)), CounterTo(r.weeksToBeAdded - 1));
    }
  }
}
