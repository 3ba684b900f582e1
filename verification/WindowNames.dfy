/** The name an emitted record carries when the configuration gives none. */
module WindowNames {
  import opened Wrappers
  import opened Records
  import opened Tallies
  import opened WindowModel
  import opened WindowTheory
  import opened WindowRuns
  import opened WindowFlush

  /** The name of the group's first in-time record. */
  ghost function FirstName(c: Config, rs: seq<Record>, s: nat, k: GroupKey): Option<Str>
    requires c.Valid()
  {
    if rs == [] then None
    else
      var n := |rs| - 1;
      var earlier := FirstName(c, rs[..n], s, k);
      if earlier.Some? then earlier
      else if Contributes(c, MaxTs(rs[..n]), rs[n], s, k) then Some(rs[n].name)
      else None
  }

  lemma FirstNameSnoc(c: Config, rs: seq<Record>, r: Record, s: nat, k: GroupKey)
    requires c.Valid()
    ensures FirstName(c, rs + [r], s, k) ==
      if FirstName(c, rs, s, k).Some? then FirstName(c, rs, s, k)
      else if Contributes(c, MaxTs(rs), r, s, k) then Some(r.name)
      else None
  {
    hide Contributes;
    assert (rs + [r])[..|rs|] == rs;
  }

  lemma {:induction false} NamedIffSampled(c: Config, rs: seq<Record>, s: nat, k: GroupKey)
    requires c.Valid()
    ensures FirstName(c, rs, s, k).Some? <==> Samples(c, rs, s, k) != []
  {
    hide Contributes;
    if rs != [] { NamedIffSampled(c, rs[..|rs| - 1], s, k); }
  }

  ghost predicate NamedGroups(c: Config, rs: seq<Record>, s: nat, groups: Groups)
    requires c.Valid()
  {
    forall k :: k in groups ==> FirstName(c, rs, s, k) == Some(groups[k].name)
  }

  /** Every open or fired group is called like its first in-time record. */
  ghost predicate Named(c: Config, rs: seq<Record>, windows: map<nat, Groups>, out: seq<Firing>)
    requires c.Valid()
  {
    && (forall s :: s in windows ==> NamedGroups(c, rs, s, windows[s]))
    && (forall i :: 0 <= i < |out| ==> NamedGroups(c, rs, out[i].start, out[i].groups))
  }

  /** A group that a record opens has had no in-time record before. */
  lemma NewGroupUnsampled(c: Config, events: seq<Event>, s: nat, k: GroupKey)
    requires c.Valid() && c.maxGroups.None? && Clean(c, events) && NoIdle(events)
    requires var t := Feed(c, events);
      Watermark(c, t.st.maxEvent) < s + c.size && k !in GroupsAt(t.st.windows, s)
    ensures FirstName(c, Arrivals(events), s, k) == None
  {
    hide Feed, Samples, TallyOf, FirstName, Emitted, Tally.Merge;
    var t := Feed(c, events);
    Conservation(c, events, s, k);
    FeedSplit(c, events);
    EmittedNever(t.out, s, k);
    MergeEmpty(NoSamples());
    TallySum(Samples(c, Arrivals(events), s, k));
    NamedIffSampled(c, Arrivals(events), s, k);
  }

  lemma FoldNames(c: Config, rs: seq<Record>, groups: Groups, s: nat, rec: Record, v: real)
    requires c.Valid() && c.maxGroups.None? && NamedGroups(c, rs, s, groups)
    requires Contributes(c, MaxTs(rs), rec, s, GroupKeyOf(rec, c.groupBy))
    requires GroupKeyOf(rec, c.groupBy) !in groups ==> FirstName(c, rs, s, GroupKeyOf(rec, c.groupBy)) == None
    ensures NamedGroups(c, rs + [rec], s, FoldInto(None, groups, GroupKeyOf(rec, c.groupBy), NewAgg(rec, c.groupBy), v))
  {
    hide Contributes, FirstName, LabelsOf, Tally.Add;
    var key := GroupKeyOf(rec, c.groupBy);
    var after := FoldInto(None, groups, key, NewAgg(rec, c.groupBy), v);
    forall k | k in after ensures FirstName(c, rs + [rec], s, k) == Some(after[k].name) {
      FirstNameSnoc(c, rs, rec, s, k);
    }
  }

  lemma NamesStay(c: Config, rs: seq<Record>, r: Record, s: nat, groups: Groups)
    requires c.Valid() && NamedGroups(c, rs, s, groups)
    ensures NamedGroups(c, rs + [r], s, groups)
  {
    hide FirstName;
    forall k | k in groups ensures FirstName(c, rs + [r], s, k) == Some(groups[k].name) {
      FirstNameSnoc(c, rs, r, s, k);
    }
  }

  /** One window after a record has been taken. */
  lemma WindowNamed(c: Config, events: seq<Event>, rec: Record, s: nat)
    requires c.Valid() && c.maxGroups.None? && Clean(c, events) && NoIdle(events) && !Rejected(c, rec)
    requires var t := Feed(c, events);
      Named(c, Arrivals(events), t.st.windows, t.out) && s in OnRecord(c, t.st, rec).windows
    ensures NamedGroups(c, Arrivals(events) + [rec], s, OnRecord(c, Feed(c, events).st, rec).windows[s])
  {
    hide Feed, OnRecord, NamedGroups, FoldInto, StartsOf;
    var t, rs := Feed(c, events), Arrivals(events);
    var groups, numeric := GroupsAt(t.st.windows, s), Numeric(rec, c.aggregate.field);
    OnRecordWindows(c, t.st, rec);
    EventTimeIsMax(c, events);
    NoGroupsNamed(c, rs, s);
    if numeric.Ok? && s in OpenStarts(c, rec.ts, Watermark(c, t.st.maxEvent)) {
      var key := GroupKeyOf(rec, c.groupBy);
      if key !in groups { NewGroupUnsampled(c, events, s, key); }
      FoldNames(c, rs, groups, s, rec, numeric.value);
    } else {
      NamesStay(c, rs, rec, s, groups);
    }
  }

  lemma NoGroupsNamed(c: Config, rs: seq<Record>, s: nat)
    requires c.Valid()
    ensures NamedGroups(c, rs, s, map[])
  {
  }

  lemma FiredNamed(c: Config, rs: seq<Record>, st: State, out: seq<Firing>, ready: set<nat>)
    requires c.Valid() && ready <= st.windows.Keys && Named(c, rs, st.windows, out)
    ensures Named(c, rs, Without(st, ready).windows, out + Fired(st, ready))
  {
    hide NamedGroups, Fired;
    FiredElements(st, ready);
  }

  lemma {:induction false} FeedNamed(c: Config, events: seq<Event>)
    requires c.Valid() && c.maxGroups.None? && Clean(c, events) && NoIdle(events)
    ensures Named(c, Arrivals(events), Feed(c, events).st.windows, Feed(c, events).out)
  {
    hide OnRecord, NamedGroups, Fired;
    if events != [] {
      var n := |events| - 1;
      FeedNamed(c, events[..n]);
      assert events[n].Arrival? && Arrivals(events) == Arrivals(events[..n]) + [events[n].rec];
      FeedClean(c, events[..n]);
      var t, rec := Feed(c, events[..n]), events[n].rec;
      var st := OnRecord(c, t.st, rec);
      forall s | s in st.windows ensures NamedGroups(c, Arrivals(events), s, st.windows[s]) {
        WindowNamed(c, events[..n], rec, s);
      }
      forall i | 0 <= i < |t.out| ensures NamedGroups(c, Arrivals(events), t.out[i].start, t.out[i].groups) {
        NamesStay(c, Arrivals(events[..n]), rec, t.out[i].start, t.out[i].groups);
      }
      FiredNamed(c, Arrivals(events), st, t.out, ReadyStarts(c, st));
    }
  }

  lemma UncappedName(c: Config, events: seq<Event>, i: nat, k: GroupKey)
    requires c.Valid() && c.maxGroups.None? && Clean(c, events) && NoIdle(events)
    requires i < |Stream(c, events)| && k in Stream(c, events)[i].groups
    requires Stream(c, events)[i].start + c.size < U64_LIMIT
    ensures var f := Stream(c, events)[i];
      var r := OutputOf(c, f.start, f.groups[k]);
      && r.Some?
      && Some(r.value.name) == if c.name.Some? then c.name else FirstName(c, Arrivals(events), f.start, k)
  {
    hide Feed, NamedGroups, Fired, FirstName;
    UncappedRecord(c, events, i, k);
    FeedNamed(c, events);
    FeedClean(c, events);
    FiredNamed(c, Arrivals(events), Feed(c, events).st, Feed(c, events).out, Feed(c, events).st.windows.Keys);
    var f := Stream(c, events)[i];
    assert NamedGroups(c, Arrivals(events), f.start, f.groups);
    NameOf(c, Arrivals(events), f, k);
  }

  lemma NameOf(c: Config, rs: seq<Record>, f: Firing, k: GroupKey)
    requires c.Valid() && NamedGroups(c, rs, f.start, f.groups) && k in f.groups
    ensures FirstName(c, rs, f.start, k) == Some(f.groups[k].name)
  {
  }

  lemma {:induction false} SameNames(c: Config, rs: seq<Record>, s: nat, k: GroupKey)
    requires c.Valid()
    ensures FirstName(c, rs, s, k) == FirstName(Uncapped(c), rs, s, k)
  {
    if rs != [] { SameNames(c, rs[..|rs| - 1], s, k); }
  }

  /** An emitted record is called as configured, or else like the group's first in-time record to arrive; a cap makes no
      difference. */
  lemma EmittedName(c: Config, events: seq<Event>, i: nat, k: GroupKey)
    requires c.Valid() && Clean(c, events) && NoIdle(events)
    requires i < |Stream(c, events)| && k in Stream(c, events)[i].groups
    requires Stream(c, events)[i].start + c.size < U64_LIMIT
    ensures var f := Stream(c, events)[i];
      var r := OutputOf(c, f.start, f.groups[k]);
      && r.Some?
      && Some(r.value.name) == if c.name.Some? then c.name else FirstName(c, Arrivals(events), f.start, k)
  {
    hide Stream, FirstName;
    FiredUncapped(c, events, i, k);
    SameNames(c, Arrivals(events), Stream(c, events)[i].start, k);
    UncappedName(Uncapped(c), events, i, k);
  }
}
