/** Calls of Read one after the other, among instances of one generic: what the
    application is handed is a history that the append-only logs explain, like
    that of a reader that follows the interface description. */
module MuchannelHistory {
  import opened ShmStream
  import opened Muchannel
  import ShmReader

  // ----- one call -----

  lemma {:induction false} CopyUniform(f: Formal, s: Channel, rc: nat, i: nat, env: Env)
    requires Inv(s) && WellFormed(f, s) && i <= f.size && Uniform(f, s) && Conforms(f, env)
    ensures Uniform(f, Copy(f, s, rc, i, env).0)
    decreases f.size - i
  {
    hide *;
    if i < f.size {
      RunUniform(f, s, env, 12 + i);
      CopyUnfolds(f, s, rc, i, env);
      CopyUniform(f, Run(s, env(12 + i)), rc, i + 1, env);
    } else {
      CopyNothing(f, s, rc, env);
    }
  }

  lemma CopyNothing(f: Formal, s: Channel, rc: nat, env: Env)
    requires Inv(s) && WellFormed(f, s)
    ensures Copy(f, s, rc, f.size, env).0 == s
  {
    hide Inv;
  }

  lemma FetchUniform(f: Formal, s: Channel, r: ReaderRec, env: Env)
    requires Inv(s) && WellFormed(f, s) && Uniform(f, s) && Conforms(f, env)
    ensures Uniform(f, Fetch(f, s, r, env).channel)
  {
    hide Inv, Uniform, Conforms, Copy, Later;
    RunUniform(f, s, env, 8);
    var s8, s9 := FetchStates(f, s, r, env);
    if r.rc < s8.hdr.wc {
      CopyUniform(f, s8, r.rc, 0, env);
      RunUniform(f, Copy(f, s8, r.rc, 0, env).0, env, 9);
      RunUniform(f, s9, env, 10);
      RunUniform(f, s9, env, 11);
      RunUniform(f, Run(s9, env(10)), env, 11);
    }
  }

  lemma ReadUniform(f: Formal, s: Channel, r: ReaderRec, env: Env)
    requires Inv(s) && WellFormed(f, s) && Uniform(f, s) && Conforms(f, env)
    ensures Uniform(f, Read(f, s, r, env).channel) && Later(s, Read(f, s, r, env).channel)
  {
    hide Inv, Uniform, Conforms, Later, Fetch, Synchronize, Good;
    var s0 := Run(s, env(0));
    var s1 := Run(s0, env(1));
    RunUniform(f, s, env, 0);
    RunUniform(f, s0, env, 1);
    LaterTransitive(s, s0, s1);
    SameSize(s, s1);
    SynchronizeStores(f, s1, r, env);
    var o := Synchronize(f, s1, r, env);
    LaterTransitive(s, s1, o.channel);
    SameSize(s1, o.channel);
    FetchUniform(f, o.channel, o.reader, env);
    FetchIsLater(f, o.channel, o.reader, env);
    LaterTransitive(s, o.channel, Fetch(f, o.channel, o.reader, env).channel);
    FetchUniform(f, s1, r, env);
    FetchIsLater(f, s1, r, env);
    LaterTransitive(s, s1, Fetch(f, s1, r, env).channel);
  }

  predicate Ended(result: Result) {
    result in {EpochChanged, Inactive, IncompatibleInterface}
  }

  /** The results of the accesses from WC on. */
  lemma FetchResult(f: Formal, s: Channel, r: ReaderRec, env: Env)
    requires Inv(s) && WellFormed(f, s)
    ensures var o := Fetch(f, s, r, env);
      && o.reader.epoch == r.epoch && o.result !in {Inactive, IncompatibleInterface}
      && (o.result == NoData ==> o.reader == r)
      && (o.result in {Success, OverrunDetected} ==> r.epoch == o.channel.hdr.epoch)
      && (o.result == EpochChanged ==> r.epoch != o.channel.hdr.epoch)
  {
    hide Inv, Copy, Run;
  }

  /** While the epoch of a reader in sync lasts, the call stays in it. */
  lemma StaysInSync(f: Formal, s: Channel, r: ReaderRec, env: Env)
    requires Inv(s) && WellFormed(f, s) && Uniform(f, s) && Conforms(f, env) && Good(f, s, r)
    requires var e := Read(f, s, r, env).channel.hdr.epoch;
      e != 0 && e in s.epochs && r.epoch == s.hdr.epoch
    ensures var o := Read(f, s, r, env);
      o.reader.epoch == r.epoch == o.channel.hdr.epoch && !Ended(o.result)
  {
    var s0 := Run(s, env(0));
    var s1 := Run(s0, env(1));
    RunUniform(f, s, env, 0);
    RunUniform(f, s0, env, 1);
    SameSize(s, s0);
    SameSize(s0, s1);
    var end := Read(f, s, r, env).channel;
    ReadFrom(f, s, r, env);
    StillThere(s, s0, s1, end);
    hide Inv, Later, Fetch, Synchronize, Uniform, Good;
    FetchResult(f, s1, r, env);
  }

  lemma StillThere(s: Channel, s0: Channel, s1: Channel, end: Channel)
    requires Inv(s) && Inv(s0) && Inv(s1) && Inv(end) && Later(s, s0) && Later(s0, s1) && Later(s1, end)
    requires end.hdr.epoch != 0 && end.hdr.epoch in s.epochs
    ensures s1.hdr.epoch == s0.hdr.epoch == s.hdr.epoch == end.hdr.epoch
  {
  }

  /** The end of a call is later than its second look at the epoch. */
  lemma ReadFrom(f: Formal, s: Channel, r: ReaderRec, env: Env)
    requires Inv(s) && WellFormed(f, s) && Uniform(f, s) && Conforms(f, env)
    ensures var s1 := Run(Run(s, env(0)), env(1)); Inv(s1) && Later(s1, Read(f, s, r, env).channel)
  {
    hide Inv, Uniform, Conforms, Later, Fetch, Synchronize, Good;
    var s0 := Run(s, env(0));
    var s1 := Run(s0, env(1));
    RunUniform(f, s, env, 0);
    RunUniform(f, s0, env, 1);
    SameSize(s, s0);
    SameSize(s0, s1);
    LaterSame(s1);
    SynchronizeStores(f, s1, r, env);
    var o := Synchronize(f, s1, r, env);
    SameSize(s1, o.channel);
    FetchIsLater(f, o.channel, o.reader, env);
    LaterTransitive(s1, o.channel, Fetch(f, o.channel, o.reader, env).channel);
    FetchIsLater(f, s1, r, env);
  }

  /** What a call leaves in the reader, by its result. */
  lemma ReadLeaves(f: Formal, s: Channel, r: ReaderRec, env: Env)
    requires Inv(s) && WellFormed(f, s) && Uniform(f, s) && Conforms(f, env) && Good(f, s, r)
    ensures Leaves(s, r, Read(f, s, r, env))
  {
    hide Inv, Later, Fetch, Synchronize, Uniform, Good, Conforms;
    var s0 := Run(s, env(0));
    var s1 := Run(s0, env(1));
    RunUniform(f, s, env, 0);
    RunUniform(f, s0, env, 1);
    SameSize(s, s0);
    SameSize(s0, s1);
    FetchResult(f, s1, r, env);
    if r.epoch == 0 || r.epoch != s0.hdr.epoch {
      SynchronizeStores(f, s1, r, env);
      SynchronizeEnds(f, s1, r, env);
      SynchronizeNull(f, s1, r, env);
      var o := Synchronize(f, s1, r, env);
      SameSize(s1, o.channel);
      FetchResult(f, o.channel, o.reader, env);
      if o.result == Success && o.reader.epoch != 0 {
        NewEpoch(f, s, s0, s1, o.channel, r, o.reader);
        WasCurrent(s, s0, s1, o.channel);
      }
    }
  }

  predicate Leaves(s: Channel, r: ReaderRec, o: Outcome) {
    && (o.result in {Success, OverrunDetected} ==> o.reader.epoch == o.channel.hdr.epoch)
    && (o.result == EpochChanged ==> o.reader.epoch != o.channel.hdr.epoch)
    && (o.result in {Inactive, IncompatibleInterface} ==> o.reader.epoch == 0)
    && (o.result == NoData ==> o.reader.rc == Before(r, o))
    && (!Ended(o.result) && o.reader.epoch != r.epoch && o.reader.epoch != 0 ==>
          (o.reader.epoch in s.epochs ==> o.reader.epoch == s.hdr.epoch != r.epoch))
  }

  lemma SynchronizeNull(f: Formal, s: Channel, r: ReaderRec, env: Env)
    requires Inv(s)
    ensures var o := Synchronize(f, s, r, env); o.result == IncompatibleInterface ==> o.reader == NULL_READER
  {
    hide Inv;
  }

  lemma WasCurrent(s: Channel, s0: Channel, s1: Channel, t: Channel)
    requires Inv(s) && Inv(s0) && Inv(s1) && Inv(t) && Later(s, s0) && Later(s0, s1) && Later(s1, t)
    requires t.hdr.epoch != 0
    ensures t.hdr.epoch in s.epochs ==> t.hdr.epoch == s.hdr.epoch == s0.hdr.epoch
  {
  }

  // ----- what the application is handed -----

  /** The reports of a call, in the terms of a reader that follows the
      description. A call without data adds nothing; whether it was right to say
      so is another matter. A call that leaves the reader without an epoch is one
      that has not synchronized. */
  function Told(r: ReaderRec, o: Outcome): seq<ShmReader.Outcome> {
    if o.reader.epoch == 0 || Ended(o.result) then [ShmReader.NotSynced]
    else Entered(r, o) + Handed(r, o)
  }

  function Entered(r: ReaderRec, o: Outcome): seq<ShmReader.Outcome> {
    if o.reader.epoch == r.epoch then []
    else [ShmReader.Synced(o.reader.epoch, o.reader.protocol, o.reader.size, o.reader.elements)]
  }

  function Handed(r: ReaderRec, o: Outcome): seq<ShmReader.Outcome> {
    match o.result
    case Success => [ShmReader.Delivered(o.reader.epoch, Before(r, o), o.element)]
    case OverrunDetected => [ShmReader.Skipped(o.reader.epoch, Before(r, o), o.reader.rc)]
    case _ => []
  }

  /** While its epoch lasts, the reader stands where its history says; no other
      epoch of its history is the current one. */
  ghost predicate HistoryInv(s: Channel, r: ReaderRec, h: seq<ShmReader.Outcome>) {
    && ShmReader.Legal(h, s.epochs)
    && (r.epoch != 0 && r.epoch == s.hdr.epoch ==> ShmReader.PositionOf(h) == ShmReader.At(r.epoch, r.rc))
    && (forall e :: ShmReader.Mentions(h, e) ==> e in s.epochs && (e == s.hdr.epoch ==> e == r.epoch))
  }

  lemma AppendOne(h: seq<ShmReader.Outcome>, o: ShmReader.Outcome, epochs: map<nat, Record>)
    requires ShmReader.Legal(h, epochs) && ShmReader.Explained(h, o, epochs)
    ensures ShmReader.Legal(h + [o], epochs)
    ensures ShmReader.PositionOf(h + [o]) == ShmReader.PositionOf([o])
    ensures forall e :: ShmReader.Mentions(h + [o], e) <==>
      ShmReader.Mentions(h, e) || (!o.NotSynced? && o.epoch == e)
  {
    ShmReader.LegalAppend(h, o, epochs);
    forall e ensures ShmReader.Mentions(h + [o], e) <==>
      ShmReader.Mentions(h, e) || (!o.NotSynced? && o.epoch == e)
    {
      ShmReader.MentionsAppend(h, o, e);
    }
  }

  /** The history before the call is still explained, and its epochs are dead
      unless the reader is in them. */
  lemma HistoryLater(f: Formal, s: Channel, r: ReaderRec, env: Env, h: seq<ShmReader.Outcome>)
    requires Inv(s) && WellFormed(f, s) && Uniform(f, s) && Conforms(f, env) && Good(f, s, r)
    requires HistoryInv(s, r, h)
    ensures var o := Read(f, s, r, env);
      && ShmReader.Legal(h, o.channel.epochs)
      && (forall e :: ShmReader.Mentions(h, e) ==>
            e in o.channel.epochs && (e == o.channel.hdr.epoch ==> e == r.epoch == o.reader.epoch && !Ended(o.result)))
  {
    ReadUniform(f, s, r, env);
    var o := Read(f, s, r, env);
    ShmReader.LegalGrows(h, s, o.channel);
    forall e | ShmReader.Mentions(h, e)
      ensures e in o.channel.epochs && (e == o.channel.hdr.epoch ==> e == r.epoch == o.reader.epoch && !Ended(o.result))
    {
      MentionedLater(s, o.channel, e);
      if e == o.channel.hdr.epoch {
        StaysInSync(f, s, r, env);
      }
      hide Inv, Later, Read;
    }
    hide Read;
  }

  lemma MentionedLater(s: Channel, t: Channel, e: nat)
    requires Inv(s) && Inv(t) && Later(s, t) && e in s.epochs
    ensures e != 0 && e in t.epochs && (e == t.hdr.epoch ==> e == s.hdr.epoch)
  {
  }

  lemma CallIsExplained(f: Formal, s: Channel, r: ReaderRec, env: Env, h: seq<ShmReader.Outcome>)
    requires Inv(s) && WellFormed(f, s) && Uniform(f, s) && Conforms(f, env) && Good(f, s, r)
    requires HistoryInv(s, r, h)
    ensures var o := Read(f, s, r, env); HistoryInv(o.channel, o.reader, h + Told(r, o))
  {
    hide *;
    var o := Read(f, s, r, env);
    HistoryLater(f, s, r, env, h);
    ReadLeaves(f, s, r, env);
    ReadKeepsGood(f, s, r, env);
    if o.reader.epoch == 0 || Ended(o.result) {
      EndIsExplained(s, r, o, h);
    } else {
      AcceptedIsRight(f, s, r, env);
      NotMentioned(s, r, o, h);
      SamePosition(f, s, r, env, h);
      Extended(f, s, r, o, h);
    }
  }

  lemma EndIsExplained(s: Channel, r: ReaderRec, o: Outcome, h: seq<ShmReader.Outcome>)
    requires o.reader.epoch == 0 || Ended(o.result)
    requires ShmReader.Legal(h, o.channel.epochs) && Leaves(s, r, o)
    requires forall e :: ShmReader.Mentions(h, e) ==>
      e in o.channel.epochs && (e == o.channel.hdr.epoch ==> e == r.epoch == o.reader.epoch && !Ended(o.result))
    ensures HistoryInv(o.channel, o.reader, h + Told(r, o))
  {
    AppendOne(h, ShmReader.NotSynced, o.channel.epochs);
    hide ShmReader.Legal, ShmReader.PositionOf, ShmReader.Mentions;
  }

  lemma NotMentioned(s: Channel, r: ReaderRec, o: Outcome, h: seq<ShmReader.Outcome>)
    requires HistoryInv(s, r, h)
    requires Leaves(s, r, o) && !Ended(o.result)
    ensures o.reader.epoch != r.epoch && o.reader.epoch != 0 ==> !ShmReader.Mentions(h, o.reader.epoch)
  {
  }

  lemma SamePosition(f: Formal, s: Channel, r: ReaderRec, env: Env, h: seq<ShmReader.Outcome>)
    requires Inv(s) && WellFormed(f, s) && Uniform(f, s) && Conforms(f, env) && Good(f, s, r)
    requires HistoryInv(s, r, h)
    ensures var o := Read(f, s, r, env);
      r.epoch != 0 && r.epoch == o.channel.hdr.epoch ==> ShmReader.PositionOf(h) == ShmReader.At(r.epoch, r.rc)
  {
    ReadUniform(f, s, r, env);
    var o := Read(f, s, r, env);
    if r.epoch != 0 && r.epoch == o.channel.hdr.epoch {
      MentionedLater(s, o.channel, r.epoch);
    }
    hide Inv, Later, Read;
  }

  /** A call in a real epoch that has not ended: what it adds is explained. */
  lemma Extended(f: Formal, s: Channel, r: ReaderRec, o: Outcome, h: seq<ShmReader.Outcome>)
    requires ShmReader.Legal(h, o.channel.epochs) && Good(f, o.channel, o.reader)
    requires forall e :: ShmReader.Mentions(h, e) ==>
      e in o.channel.epochs && (e == o.channel.hdr.epoch ==> e == r.epoch == o.reader.epoch && !Ended(o.result))
    requires o.reader.epoch != 0 && !Ended(o.result) && RightIfConfirmed(f, r, o) && Leaves(s, r, o)
    requires o.reader.epoch != r.epoch && o.reader.epoch != 0 ==> !ShmReader.Mentions(h, o.reader.epoch)
    requires r.epoch != 0 && r.epoch == o.channel.hdr.epoch ==>
      ShmReader.PositionOf(h) == ShmReader.At(r.epoch, r.rc)
    ensures HistoryInv(o.channel, o.reader, h + Told(r, o))
  {
    hide *;
    var h1 := h + Entered(r, o);
    EnteredIsExplained(f, r, o, h);
    ToldIs(r, o, h);
    if o.result == NoData {
      NothingHanded(s, r, o, h1);
    } else {
      OneHanded(f, s, r, o, h1);
    }
  }

  lemma ToldIs(r: ReaderRec, o: Outcome, h: seq<ShmReader.Outcome>)
    requires o.reader.epoch != 0 && !Ended(o.result)
    ensures h + Told(r, o) == h + Entered(r, o) + Handed(r, o)
    ensures o.result == NoData || o.result in {Success, OverrunDetected}
  {
    hide Entered, Handed;
  }

  /** Where the reader stands after it has entered its epoch. */
  ghost predicate Stands(r: ReaderRec, o: Outcome, h: seq<ShmReader.Outcome>) {
    && ShmReader.Legal(h, o.channel.epochs)
    && (o.reader.epoch == o.channel.hdr.epoch ==>
          ShmReader.PositionOf(h) == ShmReader.At(o.reader.epoch, Before(r, o)))
    && forall e :: ShmReader.Mentions(h, e) ==>
         e in o.channel.epochs && (e == o.channel.hdr.epoch ==> e == o.reader.epoch)
  }

  lemma NothingHanded(s: Channel, r: ReaderRec, o: Outcome, h: seq<ShmReader.Outcome>)
    requires o.result == NoData && Leaves(s, r, o) && Stands(r, o, h)
    ensures HistoryInv(o.channel, o.reader, h + Handed(r, o))
  {
    assert h + [] == h;
    hide ShmReader.Legal, ShmReader.PositionOf, ShmReader.Mentions;
  }

  lemma OneHanded(f: Formal, s: Channel, r: ReaderRec, o: Outcome, h: seq<ShmReader.Outcome>)
    requires o.result in {Success, OverrunDetected} && RightIfConfirmed(f, r, o) && Leaves(s, r, o)
    requires Stands(r, o, h)
    ensures HistoryInv(o.channel, o.reader, h + Handed(r, o))
  {
    hide ShmReader.Legal, ShmReader.PositionOf, ShmReader.Mentions, ShmReader.Explained;
    HandedIsExplained(f, s, r, o, h);
    var p := Handed(r, o)[0];
    AppendOne(h, p, o.channel.epochs);
    assert Handed(r, o) == [p];
    OnePosition(p);
  }

  lemma OnePosition(o: ShmReader.Outcome)
    ensures ShmReader.PositionOf([o]) == match o
      case Synced(e, _, _, _) => ShmReader.At(e, 0)
      case Delivered(e, n, _) => ShmReader.At(e, n + 1)
      case Skipped(e, _, next) => ShmReader.At(e, next)
      case NoData(e, n, _) => ShmReader.At(e, n)
      case NotSynced => ShmReader.Nowhere
  {
  }

  lemma HandedIsExplained(f: Formal, s: Channel, r: ReaderRec, o: Outcome, h: seq<ShmReader.Outcome>)
    requires o.result in {Success, OverrunDetected} && RightIfConfirmed(f, r, o) && Leaves(s, r, o)
    requires ShmReader.PositionOf(h) == ShmReader.At(o.reader.epoch, Before(r, o))
    ensures ShmReader.Explained(h, Handed(r, o)[0], o.channel.epochs)
  {
    hide ShmReader.PositionOf;
  }

  lemma EnteredIsExplained(f: Formal, r: ReaderRec, o: Outcome, h: seq<ShmReader.Outcome>)
    requires ShmReader.Legal(h, o.channel.epochs) && Good(f, o.channel, o.reader) && o.reader.epoch != 0
    requires forall e :: ShmReader.Mentions(h, e) ==>
      e in o.channel.epochs && (e == o.channel.hdr.epoch ==> e == r.epoch == o.reader.epoch)
    requires o.reader.epoch != r.epoch ==> !ShmReader.Mentions(h, o.reader.epoch)
    requires r.epoch != 0 && r.epoch == o.channel.hdr.epoch ==>
      ShmReader.PositionOf(h) == ShmReader.At(r.epoch, r.rc)
    ensures Stands(r, o, h + Entered(r, o))
  {
    if o.reader.epoch == r.epoch {
      assert h + [] == h;
    } else {
      AppendOne(h, Entered(r, o)[0], o.channel.epochs);
    }
    hide ShmReader.Legal;
  }

  // ----- any number of calls -----

  /** Channel, reader and history after calls with the given interference. */
  function Calls(f: Formal, s: Channel, r: ReaderRec, envs: seq<Env>): (c: (Channel, ReaderRec, seq<ShmReader.Outcome>))
    requires Inv(s) && WellFormed(f, s) && Uniform(f, s) && Good(f, s, r)
    requires forall i :: 0 <= i < |envs| ==> Conforms(f, envs[i])
    ensures Inv(c.0) && WellFormed(f, c.0) && Uniform(f, c.0) && Good(f, c.0, c.1)
  {
    if envs == [] then (s, r, [])
    else
      var (t, q, h) := Calls(f, s, r, envs[..|envs| - 1]);
      var env := envs[|envs| - 1];
      var o := Read(f, t, q, env);
      CallKeeps(f, t, q, env);
      (o.channel, o.reader, h + Told(q, o))
  }

  lemma CallKeeps(f: Formal, s: Channel, r: ReaderRec, env: Env)
    requires Inv(s) && WellFormed(f, s) && Uniform(f, s) && Conforms(f, env) && Good(f, s, r)
    ensures var o := Read(f, s, r, env);
      WellFormed(f, o.channel) && Uniform(f, o.channel) && Good(f, o.channel, o.reader)
  {
    ReadUniform(f, s, r, env);
    ReadKeepsGood(f, s, r, env);
    SameSize(s, Read(f, s, r, env).channel);
    hide Read, Uniform, Good;
  }

  /** Any number of calls of a reader that starts anew, among instances of its
      generic and under any interference: everything that it is handed in a real
      epoch is explained by the log of that epoch. */
  lemma {:induction false} CallsAreExplained(f: Formal, s: Channel, envs: seq<Env>)
    requires Inv(s) && WellFormed(f, s) && Uniform(f, s)
    requires forall i :: 0 <= i < |envs| ==> Conforms(f, envs[i])
    ensures Good(f, s, NULL_READER)
    ensures var (t, q, h) := Calls(f, s, NULL_READER, envs);
      HistoryInv(t, q, h) && ShmReader.Legal(h, t.epochs)
    decreases |envs|
  {
    if envs != [] {
      var front, env := envs[..|envs| - 1], envs[|envs| - 1];
      CallsAreExplained(f, s, front);
      var (t, q, h) := Calls(f, s, NULL_READER, front);
      hide HistoryInv, Inv, Uniform, Good, Conforms, Read, Told;
      CallIsExplained(f, t, q, env, h);
      HistoryIsLegal(Read(f, t, q, env).channel, Read(f, t, q, env).reader, h + Told(q, Read(f, t, q, env)));
    }
  }

  lemma HistoryIsLegal(s: Channel, r: ReaderRec, h: seq<ShmReader.Outcome>)
    requires HistoryInv(s, r, h)
    ensures ShmReader.Legal(h, s.epochs)
  {
  }

  /** So packets of one epoch arrive in the order written, none twice, and
      consecutively unless an overrun was reported between them. */
  lemma PacketsArriveInOrder(f: Formal, s: Channel, envs: seq<Env>, i: nat, j: nat)
    requires Inv(s) && WellFormed(f, s) && Uniform(f, s)
    requires forall k :: 0 <= k < |envs| ==> Conforms(f, envs[k])
    ensures Good(f, s, NULL_READER)
    ensures var h := Calls(f, s, NULL_READER, envs).2;
      i < j < |h| && h[i].Delivered? && h[j].Delivered? && h[i].epoch == h[j].epoch ==>
        && h[i].n < h[j].n
        && ((forall k :: i < k < j ==> !h[k].Delivered? && !h[k].Skipped?) ==> h[j].n == h[i].n + 1)
  {
    CallsAreExplained(f, s, envs);
    var (t, q, h) := Calls(f, s, NULL_READER, envs);
    hide Calls, HistoryInv, Inv, Uniform, Good, Conforms, ShmReader.Legal;
    if i < j < |h| && h[i].Delivered? && h[j].Delivered? && h[i].epoch == h[j].epoch {
      ShmReader.InOrder(h, t.epochs, i, j);
    }
  }
}
