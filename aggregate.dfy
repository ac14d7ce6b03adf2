/**
  The server-side aggregation behind the `/data` endpoint (`get_data`).

  A vacancy list is turned into three lists of `{name, count}` buckets:
  every key skill that occurs at least five times, and every truthy
  experience and schedule value. Each list comes from a `Counter`, so it is
  in the order in which its labels first occur; nothing is sorted.
*/
module Aggregate {
  import opened Wrappers

  /** One vacancy, reduced to the fields the aggregation reads. A missing
      `key_skills` list is the empty list (the `.get` default); a missing or
      null `experience` or `schedule` is `None`. */
  datatype Record = Record(keySkills: seq<string>, experience: Option<string>, schedule: Option<string>)

  /** The two single-valued fields that are counted. */
  datatype Field = Experience | Schedule

  /** One `{"name": ..., "count": ...}` object of the response. */
  datatype Bucket = Bucket(name: string, count: nat)

  /** The JSON object the endpoint returns. */
  datatype Summary = Summary(skills: seq<Bucket>, experience: seq<Bucket>, schedule: seq<Bucket>)

  /** Skills occurring fewer times than this are not reported. */
  const MinSkillThreshold: nat := 5

  function FieldValue(r: Record, f: Field): Option<string>
  {
    match f
    case Experience => r.experience
    case Schedule => r.schedule
  }

  /** Python truthiness of a string-or-None value: present and non-empty. */
  predicate Truthy(v: Option<string>)
  {
    v.Some? && v.value != ""
  }

  // ---------------------------------------------------------------------
  // The operations
  // ---------------------------------------------------------------------

  /** Every skill of every record, in record order, repeats kept. */
  function AllSkills(data: seq<Record>): seq<string>
  {
    if data == [] then [] else data[0].keySkills + AllSkills(data[1..])
  }

  /** The truthy values of one field, in record order. */
  function Values(data: seq<Record>, f: Field): seq<string>
  {
    if data == [] then []
    else
      var v := FieldValue(data[0], f);
      (if Truthy(v) then [v.value] else []) + Values(data[1..], f)
  }

  /** Counting one more `x` in a Counter, seen as its list of items:
      the item for `x` goes up by one, or a new item `(x, 1)` is appended. */
  function Bump(bs: seq<Bucket>, x: string): seq<Bucket>
  {
    if bs == [] then [Bucket(x, 1)]
    else if bs[0].name == x then [Bucket(x, bs[0].count + 1)] + bs[1..]
    else [bs[0]] + Bump(bs[1..], x)
  }

  /** `Counter(xs).items()`: the elements of `xs` counted one by one, left to right. */
  function Tally(xs: seq<string>): seq<Bucket>
  {
    if xs == [] then [] else Bump(Tally(xs[..|xs| - 1]), xs[|xs| - 1])
  }

  /** The list comprehension keeping the items whose count is at least `min`. */
  function AboveThreshold(bs: seq<Bucket>, min: nat): seq<Bucket>
  {
    if bs == [] then []
    else (if bs[0].count >= min then [bs[0]] else []) + AboveThreshold(bs[1..], min)
  }

  /** The counts of one single-valued field. */
  function FieldCounts(data: seq<Record>, f: Field): seq<Bucket>
  {
    Tally(Values(data, f))
  }

  /** The response of `get_data` for the vacancy list `data`. */
  function GetData(data: seq<Record>): Summary
  {
    Summary(AboveThreshold(Tally(AllSkills(data)), MinSkillThreshold),
            FieldCounts(data, Experience),
            FieldCounts(data, Schedule))
  }

  // ---------------------------------------------------------------------
  // Vocabulary of the specification
  // ---------------------------------------------------------------------

  function Names(bs: seq<Bucket>): (r: seq<string>)
    ensures |r| == |bs| && forall i :: 0 <= i < |bs| ==> r[i] == bs[i].name
  {
    seq(|bs|, i requires 0 <= i < |bs| => bs[i].name)
  }

  /** The sum of all counts. */
  function Total(bs: seq<Bucket>): nat
  {
    if bs == [] then 0 else bs[0].count + Total(bs[1..])
  }

  /** The position of the first `x` in `xs`, or `|xs|` when there is none. */
  function FirstIndex(xs: seq<string>, x: string): (k: nat)
    ensures k <= |xs|
    ensures k < |xs| <==> x in xs
    ensures k < |xs| ==> xs[k] == x
    ensures forall j :: 0 <= j < k ==> xs[j] != x
  {
    if xs == [] then 0 else if xs[0] == x then 0 else 1 + FirstIndex(xs[1..], x)
  }

  /** Labels appear in the order of their first occurrence in `xs`. */
  predicate InFirstOccurrenceOrder(bs: seq<Bucket>, xs: seq<string>)
  {
    forall i, j :: 0 <= i < j < |bs| ==> FirstIndex(xs, bs[i].name) < FirstIndex(xs, bs[j].name)
  }

  predicate UniqueNames(bs: seq<Bucket>)
  {
    forall i, j :: 0 <= i < j < |bs| ==> bs[i].name != bs[j].name
  }

  /** Every bucket's count is the number of occurrences of its label in `xs`. */
  predicate CountsOccurrences(bs: seq<Bucket>, xs: seq<string>)
  {
    forall i :: 0 <= i < |bs| ==> bs[i].count == multiset(xs)[bs[i].name]
  }

  /** Number of occurrences of skill `s`, record by record. */
  function SkillOccurrences(data: seq<Record>, s: string): nat
  {
    if data == [] then 0 else multiset(data[0].keySkills)[s] + SkillOccurrences(data[1..], s)
  }

  /** Number of records whose field `f` holds a truthy value. */
  function TruthyRecords(data: seq<Record>, f: Field): nat
  {
    if data == [] then 0
    else (if Truthy(FieldValue(data[0], f)) then 1 else 0) + TruthyRecords(data[1..], f)
  }

  /** Number of records whose field `f` is exactly `e`. */
  function RecordsWithValue(data: seq<Record>, f: Field, e: string): nat
  {
    if data == [] then 0
    else (if FieldValue(data[0], f) == Some(e) then 1 else 0) + RecordsWithValue(data[1..], f, e)
  }

  // ---------------------------------------------------------------------
  // Counter
  // ---------------------------------------------------------------------

  lemma {:induction false} FirstIndexAppend(p: seq<string>, y: string, x: string)
    ensures FirstIndex(p + [y], x) == if x in p then FirstIndex(p, x) else if x == y then |p| else |p| + 1
  {
    if p != [] {
      assert (p + [y])[1..] == p[1..] + [y];
      FirstIndexAppend(p[1..], y, x);
    }
  }

  lemma OrderedNamesAreUnique(bs: seq<Bucket>, xs: seq<string>)
    requires InFirstOccurrenceOrder(bs, xs)
    ensures UniqueNames(bs)
  {
  }

  /** One more element adds exactly one to the total count. */
  lemma {:induction false} BumpTotal(bs: seq<Bucket>, x: string)
    ensures Total(Bump(bs, x)) == Total(bs) + 1
  {
    if bs != [] && bs[0].name != x {
      BumpTotal(bs[1..], x);
    }
  }

  lemma NamesTail(bs: seq<Bucket>, x: string)
    requires bs != []
    ensures x in Names(bs) <==> bs[0].name == x || x in Names(bs[1..])
  {
    if x in Names(bs) && bs[0].name != x {
      var k :| 0 <= k < |bs| && Names(bs)[k] == x;
      assert Names(bs[1..])[k - 1] == x;
    }
    if x in Names(bs[1..]) {
      var k :| 0 <= k < |bs| - 1 && Names(bs[1..])[k] == x;
      assert Names(bs)[k + 1] == x;
    }
  }

  lemma UniqueTail(bs: seq<Bucket>)
    requires bs != [] && UniqueNames(bs)
    ensures UniqueNames(bs[1..])
    ensures forall i :: 1 <= i < |bs| ==> bs[i].name != bs[0].name
  {
    forall i, j | 0 <= i < j < |bs[1..]| ensures bs[1..][i].name != bs[1..][j].name {
      assert bs[1..][i] == bs[i + 1] && bs[1..][j] == bs[j + 1];
    }
  }

  /** Counting a label not yet present appends `(x, 1)`. */
  lemma {:induction false} BumpNew(bs: seq<Bucket>, x: string)
    requires x !in Names(bs)
    ensures Bump(bs, x) == bs + [Bucket(x, 1)]
  {
    if bs != [] {
      NamesTail(bs, x);
      BumpNew(bs[1..], x);
      assert bs == [bs[0]] + bs[1..];
    }
  }

  /** With unique labels, counting a present label raises its bucket by one
      and changes no other bucket. */
  lemma {:induction false} BumpKnown(bs: seq<Bucket>, x: string)
    requires UniqueNames(bs) && x in Names(bs)
    ensures |Bump(bs, x)| == |bs|
    ensures forall i :: 0 <= i < |bs| ==>
      Bump(bs, x)[i] == Bucket(bs[i].name, bs[i].count + if bs[i].name == x then 1 else 0)
  {
    NamesTail(bs, x);
    UniqueTail(bs);
    var r := Bump(bs, x);
    if bs[0].name != x {
      BumpKnown(bs[1..], x);
      assert r == [bs[0]] + Bump(bs[1..], x);
      forall i | 0 <= i < |bs| ensures r[i] == Bucket(bs[i].name, bs[i].count + if bs[i].name == x then 1 else 0) {
        if i > 0 {
          assert r[i] == Bump(bs[1..], x)[i - 1] && bs[i] == bs[1..][i - 1];
        }
      }
    }
  }

  /** With unique labels, `Bump` either raises the one bucket labelled `x`
      or appends `(x, 1)`; no other bucket changes. */
  lemma BumpSpec(bs: seq<Bucket>, x: string)
    requires UniqueNames(bs)
    ensures x in Names(bs) ==>
      |Bump(bs, x)| == |bs| &&
      forall i :: 0 <= i < |bs| ==>
        Bump(bs, x)[i] == Bucket(bs[i].name, bs[i].count + if bs[i].name == x then 1 else 0)
    ensures x !in Names(bs) ==> Bump(bs, x) == bs + [Bucket(x, 1)]
  {
    if x in Names(bs) {
      BumpKnown(bs, x);
    } else {
      BumpNew(bs, x);
    }
  }

  /** What `Counter(xs).items()` is: one bucket per distinct element of `xs`,
      in the order of first occurrence, each counting that element's occurrences. */
  predicate IsTallyOf(bs: seq<Bucket>, xs: seq<string>)
  {
    && CountsOccurrences(bs, xs)
    && (forall i :: 0 <= i < |bs| ==> bs[i].name in xs)
    && (forall x :: x in xs ==> x in Names(bs))
    && InFirstOccurrenceOrder(bs, xs)
  }

  lemma BumpCounts(t: seq<Bucket>, p: seq<string>, y: string)
    requires IsTallyOf(t, p) && UniqueNames(t)
    ensures CountsOccurrences(Bump(t, y), p + [y])
  {
    BumpSpec(t, y);
    var t', xs := Bump(t, y), p + [y];
    if y in Names(t) {
      forall i | 0 <= i < |t'| ensures t'[i].count == multiset(xs)[t'[i].name] {
        assert t'[i].name == t[i].name;
      }
    } else {
      assert y !in p;
      forall i | 0 <= i < |t'| ensures t'[i].count == multiset(xs)[t'[i].name] {
        if i < |t| {
          assert t'[i] == t[i];
        }
      }
    }
  }

  lemma BumpNames(t: seq<Bucket>, p: seq<string>, y: string)
    requires IsTallyOf(t, p) && UniqueNames(t)
    ensures forall i :: 0 <= i < |Bump(t, y)| ==> Bump(t, y)[i].name in p + [y]
    ensures forall x :: x in p + [y] ==> x in Names(Bump(t, y))
  {
    BumpSpec(t, y);
    var t', xs := Bump(t, y), p + [y];
    forall i | 0 <= i < |t'| ensures t'[i].name in xs {
      if i < |t| {
        assert t'[i].name == t[i].name;
      }
    }
    forall x | x in xs ensures x in Names(t') {
      if x in p {
        var k :| 0 <= k < |t| && t[k].name == x;
        assert t'[k].name == x;
      } else {
        assert x == y && y !in Names(t);
        assert t'[|t|].name == y;
      }
    }
  }

  lemma BumpOrderKnown(t: seq<Bucket>, p: seq<string>, y: string)
    requires IsTallyOf(t, p) && UniqueNames(t) && y in Names(t)
    ensures InFirstOccurrenceOrder(Bump(t, y), p + [y])
  {
    BumpSpec(t, y);
    var t', xs := Bump(t, y), p + [y];
    forall i, j | 0 <= i < j < |t'| ensures FirstIndex(xs, t'[i].name) < FirstIndex(xs, t'[j].name) {
      assert t'[i].name == t[i].name && t'[j].name == t[j].name;
      FirstIndexAppend(p, y, t[i].name);
      FirstIndexAppend(p, y, t[j].name);
    }
  }

  lemma BumpOrderNew(t: seq<Bucket>, p: seq<string>, y: string)
    requires IsTallyOf(t, p) && UniqueNames(t) && y !in Names(t)
    ensures InFirstOccurrenceOrder(Bump(t, y), p + [y])
  {
    BumpSpec(t, y);
    var t', xs := Bump(t, y), p + [y];
    assert y !in p;
    FirstIndexAppend(p, y, y);
    forall i, j | 0 <= i < j < |t'| ensures FirstIndex(xs, t'[i].name) < FirstIndex(xs, t'[j].name) {
      assert t'[i] == t[i];
      FirstIndexAppend(p, y, t[i].name);
      if j < |t| {
        assert t'[j] == t[j];
        FirstIndexAppend(p, y, t[j].name);
      }
    }
  }

  lemma BumpOrder(t: seq<Bucket>, p: seq<string>, y: string)
    requires IsTallyOf(t, p) && UniqueNames(t)
    ensures InFirstOccurrenceOrder(Bump(t, y), p + [y])
  {
    if y in Names(t) {
      BumpOrderKnown(t, p, y);
    } else {
      BumpOrderNew(t, p, y);
    }
  }

  /** `Tally` computes `Counter(xs).items()`; in particular no label repeats. */
  lemma {:induction false} TallySpec(xs: seq<string>)
    ensures IsTallyOf(Tally(xs), xs)
    ensures UniqueNames(Tally(xs))
  {
    if xs != [] {
      var p, y := xs[..|xs| - 1], xs[|xs| - 1];
      assert xs == p + [y];
      TallySpec(p);
      BumpCounts(Tally(p), p, y);
      BumpNames(Tally(p), p, y);
      BumpOrder(Tally(p), p, y);
      OrderedNamesAreUnique(Tally(xs), xs);
    }
  }

  /** The counts add up to the number of elements counted. */
  lemma {:induction false} TallyTotal(xs: seq<string>)
    ensures Total(Tally(xs)) == |xs|
  {
    if xs != [] {
      TallyTotal(xs[..|xs| - 1]);
      BumpTotal(Tally(xs[..|xs| - 1]), xs[|xs| - 1]);
    }
  }

  // ---------------------------------------------------------------------
  // The skill list
  // ---------------------------------------------------------------------

  /** Flattening the records' lists counts a skill once per occurrence in
      each record, repeats inside one record included. */
  lemma {:induction false} AllSkillsOccurrences(data: seq<Record>, s: string)
    ensures multiset(AllSkills(data))[s] == SkillOccurrences(data, s)
  {
    if data != [] {
      AllSkillsOccurrences(data[1..], s);
      assert multiset(AllSkills(data)) == multiset(data[0].keySkills) + multiset(AllSkills(data[1..]));
    }
  }

  lemma TailOrdered(bs: seq<Bucket>, xs: seq<string>)
    requires bs != [] && InFirstOccurrenceOrder(bs, xs)
    ensures InFirstOccurrenceOrder(bs[1..], xs)
  {
    forall i, j | 0 <= i < j < |bs[1..]|
      ensures FirstIndex(xs, bs[1..][i].name) < FirstIndex(xs, bs[1..][j].name)
    {
      assert bs[1..][i] == bs[i + 1] && bs[1..][j] == bs[j + 1];
    }
  }

  lemma ConsOrdered(h: Bucket, rest: seq<Bucket>, xs: seq<string>)
    requires InFirstOccurrenceOrder(rest, xs)
    requires forall b :: b in rest ==> FirstIndex(xs, h.name) < FirstIndex(xs, b.name)
    ensures InFirstOccurrenceOrder([h] + rest, xs)
  {
    var r := [h] + rest;
    forall i, j | 0 <= i < j < |r| ensures FirstIndex(xs, r[i].name) < FirstIndex(xs, r[j].name) {
      assert r[j] == rest[j - 1];
      if i > 0 {
        assert r[i] == rest[i - 1];
      }
    }
  }

  /** The threshold comprehension keeps exactly the buckets at or above `min`. */
  lemma {:induction false} AboveThresholdMembers(bs: seq<Bucket>, min: nat)
    ensures forall b :: b in AboveThreshold(bs, min) <==> b in bs && b.count >= min
  {
    if bs != [] {
      AboveThresholdMembers(bs[1..], min);
      assert bs == [bs[0]] + bs[1..];
    }
  }

  /** The threshold comprehension keeps the buckets' order. */
  lemma {:induction false} AboveThresholdOrder(bs: seq<Bucket>, min: nat, xs: seq<string>)
    requires InFirstOccurrenceOrder(bs, xs)
    ensures InFirstOccurrenceOrder(AboveThreshold(bs, min), xs)
  {
    if bs != [] {
      TailOrdered(bs, xs);
      AboveThresholdOrder(bs[1..], min, xs);
      var rest := AboveThreshold(bs[1..], min);
      if bs[0].count >= min {
        AboveThresholdMembers(bs[1..], min);
        forall b | b in rest ensures FirstIndex(xs, bs[0].name) < FirstIndex(xs, b.name) {
          var k :| 0 <= k < |bs[1..]| && bs[1..][k] == b;
          assert bs[k + 1] == b;
        }
        ConsOrdered(bs[0], rest, xs);
      }
    }
  }

  /** Filtering a tally keeps the buckets' counts and order. */
  lemma ThresholdCounts(xs: seq<string>, min: nat)
    ensures var r := AboveThreshold(Tally(xs), min);
      forall i :: 0 <= i < |r| ==> r[i].count == multiset(xs)[r[i].name] && r[i].count >= min
    ensures InFirstOccurrenceOrder(AboveThreshold(Tally(xs), min), xs)
  {
    var t := Tally(xs);
    var r := AboveThreshold(t, min);
    TallySpec(xs);
    AboveThresholdMembers(t, min);
    AboveThresholdOrder(t, min, xs);
    forall i | 0 <= i < |r| ensures r[i].count == multiset(xs)[r[i].name] {
      assert r[i] in t;
    }
  }

  /** A label survives the filter exactly when it occurs at least `min` times. */
  lemma ThresholdMembers(xs: seq<string>, min: nat, s: string)
    requires min > 0
    ensures s in Names(AboveThreshold(Tally(xs), min)) <==> multiset(xs)[s] >= min
  {
    var t := Tally(xs);
    var r := AboveThreshold(t, min);
    TallySpec(xs);
    AboveThresholdMembers(t, min);
    if s in Names(r) {
      var k :| 0 <= k < |r| && r[k].name == s;
      assert r[k] in t;
      var m :| 0 <= m < |t| && t[m] == r[k];
    }
    if multiset(xs)[s] >= min {
      ThresholdKeeps(t, xs, min, s);
    }
  }

  lemma ThresholdKeeps(t: seq<Bucket>, xs: seq<string>, min: nat, s: string)
    requires CountsOccurrences(t, xs) && (forall x :: x in xs ==> x in Names(t))
    requires min > 0 && multiset(xs)[s] >= min
    requires forall b :: b in AboveThreshold(t, min) <==> b in t && b.count >= min
    ensures s in Names(AboveThreshold(t, min))
  {
    var r := AboveThreshold(t, min);
    assert s in xs;
    var k :| 0 <= k < |t| && t[k].name == s;
    assert t[k] in r;
    var m :| 0 <= m < |r| && r[m] == t[k];
    assert Names(r)[m] == s;
  }

  /** The skill list: each emitted skill carries its number of occurrences
      over all records, which is at least the threshold; a skill is emitted
      exactly when it occurs that often; labels are unique and in the order
      in which they first occur. */
  lemma SkillsSpec(data: seq<Record>)
    ensures var sk := GetData(data).skills;
      forall i :: 0 <= i < |sk| ==>
        sk[i].count == SkillOccurrences(data, sk[i].name) && sk[i].count >= MinSkillThreshold
    ensures forall s :: s in Names(GetData(data).skills) <==> SkillOccurrences(data, s) >= MinSkillThreshold
    ensures InFirstOccurrenceOrder(GetData(data).skills, AllSkills(data))
    ensures UniqueNames(GetData(data).skills)
  {
    var all := AllSkills(data);
    var sk := GetData(data).skills;
    assert sk == AboveThreshold(Tally(all), MinSkillThreshold);
    ThresholdCounts(all, MinSkillThreshold);
    forall s ensures multiset(all)[s] == SkillOccurrences(data, s) {
      AllSkillsOccurrences(data, s);
    }
    forall s ensures s in Names(sk) <==> multiset(all)[s] >= MinSkillThreshold {
      ThresholdMembers(all, MinSkillThreshold, s);
    }
    OrderedNamesAreUnique(sk, all);
  }

  /** A record without key skills adds nothing to the skill list. */
  lemma {:induction false} SkillLessRecordIgnored(before: seq<Record>, r: Record, after: seq<Record>)
    requires r.keySkills == []
    ensures AllSkills(before + [r] + after) == AllSkills(before + after)
    ensures GetData(before + [r] + after).skills == GetData(before + after).skills
  {
    if before != [] {
      assert (before + [r] + after)[1..] == before[1..] + [r] + after;
      assert (before + after)[1..] == before[1..] + after;
      SkillLessRecordIgnored(before[1..], r, after);
    } else {
      assert before + [r] + after == [r] + after && before + after == after;
      assert ([r] + after)[1..] == after;
    }
  }

  // ---------------------------------------------------------------------
  // The experience and schedule lists
  // ---------------------------------------------------------------------

  /** The list handed to `Counter` holds one non-empty value per record
      whose field is truthy. */
  lemma {:induction false} ValuesSpec(data: seq<Record>, f: Field)
    ensures |Values(data, f)| == TruthyRecords(data, f)
    ensures forall v :: v in Values(data, f) ==> v != ""
    ensures forall e :: e != "" ==> multiset(Values(data, f))[e] == RecordsWithValue(data, f, e)
    ensures forall r :: r in data && Truthy(FieldValue(r, f)) ==> FieldValue(r, f).value in Values(data, f)
  {
    if data != [] {
      ValuesSpec(data[1..], f);
      var v := FieldValue(data[0], f);
      var head := if Truthy(v) then [v.value] else [];
      assert Values(data, f) == head + Values(data[1..], f);
      forall r | r in data && Truthy(FieldValue(r, f)) ensures FieldValue(r, f).value in Values(data, f) {
        if r != data[0] {
          assert r in data[1..];
        }
      }
    }
  }

  /** The experience list (`f == Experience`) and the schedule list
      (`f == Schedule`): one bucket per distinct truthy value, counting the
      records holding it; the counts sum to the number of records with a
      truthy value; labels are unique, non-empty, in first-occurrence order. */
  lemma FieldCountsSpec(data: seq<Record>, f: Field)
    ensures var c := FieldCounts(data, f);
      forall i :: 0 <= i < |c| ==>
        c[i].name != "" && c[i].count >= 1 && c[i].count == RecordsWithValue(data, f, c[i].name)
    ensures forall r :: r in data && Truthy(FieldValue(r, f)) ==> FieldValue(r, f).value in Names(FieldCounts(data, f))
    ensures Total(FieldCounts(data, f)) == TruthyRecords(data, f)
    ensures InFirstOccurrenceOrder(FieldCounts(data, f), Values(data, f))
    ensures UniqueNames(FieldCounts(data, f))
  {
    var vs := Values(data, f);
    ValuesSpec(data, f);
    TallySpec(vs);
    TallyTotal(vs);
    var c := FieldCounts(data, f);
    forall i | 0 <= i < |c| ensures c[i].name != "" && c[i].count >= 1 {
      assert c[i].name in vs;
    }
  }

  /** A record whose field is absent, null or empty adds nothing to that field's list. */
  lemma {:induction false} FalsyRecordIgnored(before: seq<Record>, r: Record, after: seq<Record>, f: Field)
    requires !Truthy(FieldValue(r, f))
    ensures Values(before + [r] + after, f) == Values(before + after, f)
    ensures FieldCounts(before + [r] + after, f) == FieldCounts(before + after, f)
  {
    if before != [] {
      assert (before + [r] + after)[1..] == before[1..] + [r] + after;
      assert (before + after)[1..] == before[1..] + after;
      FalsyRecordIgnored(before[1..], r, after, f);
    } else {
      assert before + [r] + after == [r] + after && before + after == after;
      assert ([r] + after)[1..] == after;
    }
  }

  lemma SampleTally()
    ensures Tally(["Go", "SQL", "Go"]) == [Bucket("Go", 2), Bucket("SQL", 1)]
  {
    var all := ["Go", "SQL", "Go"];
    assert all[..2] == ["Go", "SQL"] && all[..2][..1] == ["Go"] && all[..2][..1][..0] == [];
    assert Tally(["Go"]) == [Bucket("Go", 1)];
    assert Bump([Bucket("Go", 1)], "SQL") == [Bucket("Go", 1)] + Bump([], "SQL");
    assert Tally(["Go", "SQL"]) == [Bucket("Go", 1), Bucket("SQL", 1)];
    assert Tally(all) == Bump([Bucket("Go", 1), Bucket("SQL", 1)], "Go");
  }

  /** Two records mentioning "Go" twice and "SQL" once: no skill reaches the
      threshold, and records without experience or schedule produce empty
      lists rather than a default label. */
  lemma SmallSampleExample()
    ensures var data := [Record(["Go", "SQL"], None, None), Record(["Go"], Some(""), None)];
      Tally(AllSkills(data)) == [Bucket("Go", 2), Bucket("SQL", 1)] &&
      GetData(data) == Summary([], [], [])
  {
    var data := [Record(["Go", "SQL"], None, None), Record(["Go"], Some(""), None)];
    assert data[1..] == [Record(["Go"], Some(""), None)] && data[1..][1..] == [];
    assert AllSkills(data) == ["Go", "SQL", "Go"];
    SampleTally();
    assert AboveThreshold([Bucket("Go", 2), Bucket("SQL", 1)], MinSkillThreshold) == [];
    assert Values(data, Experience) == [];
    assert Values(data, Schedule) == [];
  }
}
