/** The content channel over a stream of chunks: history only grows at the
    front, commits stack newest first, and a resync converges to the full
    live text whatever diffs arrived while it was pending. */
module ContentRuns {
  import opened Wrappers
  import opened Strings
  import opened Channel
  import opened Content

  /** The replica after handling `ms` in order, and everything published. */
  function Run(me: Identity, st: Replica, ms: seq<Message>): Update
    decreases |ms|
  {
    if |ms| == 0 then Update(st, [])
    else
      var first := HandleContent(me, st, ms[0]);
      var rest := Run(me, first.replica, ms[1..]);
      Update(rest.replica, first.effects + rest.effects)
  }

  /** The same over chunks already read. */
  function RunChunks(me: Identity, st: Replica, cs: seq<Chunk>): Update
    decreases |cs|
  {
    if |cs| == 0 then Update(st, [])
    else
      var first := Apply(me, st, cs[0]);
      var rest := RunChunks(me, first.replica, cs[1..]);
      Update(rest.replica, first.effects + rest.effects)
  }

  /** What each message means to this client: its chunk, or nothing. */
  function Read(me: Identity, m: Message): Chunk {
    if Addressed(m.name, me.clientId) then ParseChunk(m.data) else Unrecognized
  }

  function ReadAll(me: Identity, ms: seq<Message>): (cs: seq<Chunk>)
    ensures |cs| == |ms|
    ensures forall i :: 0 <= i < |ms| ==> cs[i] == Read(me, ms[i])
  {
    seq(|ms|, i requires 0 <= i < |ms| => Read(me, ms[i]))
  }

  /** Handling the messages is running the chunks they read as. */
  lemma {:induction false} RunIsRunChunks(me: Identity, st: Replica, ms: seq<Message>)
    ensures Run(me, st, ms) == RunChunks(me, st, ReadAll(me, ms))
    decreases |ms|
  {
    if |ms| > 0 {
      HandleIsParseThenApply(me, st, ms[0]);
      ApplyUnrecognized(me, st);
      var cs := ReadAll(me, ms);
      assert cs[1..] == ReadAll(me, ms[1..]);
      RunIsRunChunks(me, HandleContent(me, st, ms[0]).replica, ms[1..]);
    }
  }

  lemma {:induction false} RunChunksAppend(me: Identity, st: Replica, cs: seq<Chunk>, ds: seq<Chunk>)
    ensures var a := RunChunks(me, st, cs);
            var b := RunChunks(me, a.replica, ds);
            RunChunks(me, st, cs + ds) == Update(b.replica, a.effects + b.effects)
    decreases |cs|
  {
    if |cs| == 0 {
      assert cs + ds == ds;
    } else {
      assert (cs + ds)[1..] == cs[1..] + ds;
      assert (cs + ds)[0] == cs[0];
      var first := Apply(me, st, cs[0]);
      RunChunksAppend(me, first.replica, cs[1..], ds);
      var a := RunChunks(me, first.replica, cs[1..]);
      var b := RunChunks(me, a.replica, ds);
      assert first.effects + (a.effects + b.effects) == (first.effects + a.effects) + b.effects;
    }
  }

  /** `a` is a suffix of `b`. */
  predicate IsSuffix(a: string, b: string) {
    |a| <= |b| && b[|b| - |a|..] == a
  }

  /** History only grows, at the front: what was committed before any run
      of chunks is still the tail of the history after it. */
  lemma {:induction false} HistoryOnlyGrows(me: Identity, st: Replica, cs: seq<Chunk>)
    ensures IsSuffix(st.text.past, RunChunks(me, st, cs).replica.text.past)
    decreases |cs|
  {
    if |cs| > 0 {
      var first := Apply(me, st, cs[0]);
      ApplyShape(me, st, cs[0]);
      HistoryOnlyGrows(me, first.replica, cs[1..]);
      var p0 := st.text.past;
      var p1 := first.replica.text.past;
      var p2 := RunChunks(me, st, cs).replica.text.past;
      assert IsSuffix(p0, p1) by {
        if p1 != p0 {
          assert p1 == st.text.live + "\n" + p0;
          assert p1[|p1| - |p0|..] == p0;
        }
      }
      assert p2[|p2| - |p0|..] == p2[|p2| - |p1|..][|p1| - |p0|..];
    }
  }

  /** The same for messages as they arrive on the channel. */
  lemma HistoryOnlyGrowsOnChannel(me: Identity, st: Replica, ms: seq<Message>)
    ensures IsSuffix(st.text.past, Run(me, st, ms).replica.text.past)
  {
    RunIsRunChunks(me, st, ms);
    HistoryOnlyGrows(me, st, ReadAll(me, ms));
  }

  /** Typing `L1`, committing, typing `L2` and committing leaves
      `L2 + "\n" + L1 + "\n" + past` as history and an empty line. */
  lemma TwoCommits(me: Identity, live: string, past: string, l1: string, l2: string)
    ensures RunChunks(me, Replica(Text(live, past), false),
                      [FullReplace(l1), CommitLine, FullReplace(l2), CommitLine])
              == Update(Replica(Text("", l2 + "\n" + l1 + "\n" + past), false), [])
  {
    var h1 := l1 + "\n" + past;
    var s1 := Replica(Text(l1, past), false);
    var s2 := Replica(Text("", h1), false);
    var s3 := Replica(Text(l2, h1), false);
    var s4 := Replica(Text("", l2 + "\n" + h1), false);
    assert RunChunks(me, s4, []) == Update(s4, []);
    assert [CommitLine][1..] == [];
    assert RunChunks(me, s3, [CommitLine]) == Update(s4, []);
    assert [FullReplace(l2), CommitLine][1..] == [CommitLine];
    assert RunChunks(me, s2, [FullReplace(l2), CommitLine]) == Update(s4, []);
    assert [CommitLine, FullReplace(l2), CommitLine][1..] == [FullReplace(l2), CommitLine];
    assert RunChunks(me, s1, [CommitLine, FullReplace(l2), CommitLine]) == Update(s4, []);
    var cs := [FullReplace(l1), CommitLine, FullReplace(l2), CommitLine];
    assert cs[1..] == [CommitLine, FullReplace(l2), CommitLine];
    assert l2 + "\n" + h1 == l2 + "\n" + l1 + "\n" + past;
  }

  /** While no full live text arrives, resync persists, history is kept,
      nothing is published and the line is either untouched or cleared. */
  lemma {:induction false} ResyncHolds(me: Identity, st: Replica, cs: seq<Chunk>)
    requires st.resyncing
    requires forall i :: 0 <= i < |cs| ==> !cs[i].FullLiveText?
    ensures var r := RunChunks(me, st, cs);
            && r.replica.resyncing && r.replica.text.past == st.text.past && r.effects == []
            && (r.replica.text.live == st.text.live || r.replica.text.live == "")
    decreases |cs|
  {
    if |cs| > 0 {
      var first := Apply(me, st, cs[0]);
      assert first.replica.resyncing && first.effects == [] && first.replica.text.past == st.text.past;
      assert first.replica.text.live == st.text.live || first.replica.text.live == "";
      ResyncHolds(me, first.replica, cs[1..]);
    }
  }

  /** Resync convergence: from resync mode, after any chunks that are not a
      full live text, a full live text `T` leaves the line equal to `T`
      whatever came before, keeps the history and ends resync. */
  lemma ResyncConverges(me: Identity, st: Replica, cs: seq<Chunk>, t: string)
    requires st.resyncing
    requires forall i :: 0 <= i < |cs| ==> !cs[i].FullLiveText?
    ensures RunChunks(me, st, cs + [FullLiveText(t)]) == Update(Replica(Text(t, st.text.past), false), [])
  {
    RunChunksAppend(me, st, cs, [FullLiveText(t)]);
    ResyncHolds(me, st, cs);
    assert [FullLiveText(t)][1..] == [];
  }

  /** Divergence and recovery: in normal mode a suffix replace past the end
      of the line publishes one reread request; after the reset
      acknowledgement, any chunks that are not a full live text, and the
      full live text `T`, the line is `T`, the history is what it was before
      the divergence, resync is over, and that one request is all that was
      published. */
  lemma DivergenceRecovers(me: Identity, live: string, past: string, n: nat, x: string,
                           cs: seq<Chunk>, t: string)
    requires n > |live|
    requires forall i :: 0 <= i < |cs| ==> !cs[i].FullLiveText?
    ensures RunChunks(me, Replica(Text(live, past), false),
                      [SuffixReplace(Some(n), x), ResetAck] + cs + [FullLiveText(t)])
              == Update(Replica(Text(t, past), false), [RereadEffect(me)])
  {
    var s0 := Replica(Text(live, past), false);
    var s2 := Replica(Text("", past), true);
    var head := [SuffixReplace(Some(n), x), ResetAck];
    assert RunChunks(me, s0, head) == Update(s2, [RereadEffect(me)]) by {
      assert head[1..] == [ResetAck];
      assert [ResetAck][1..] == [];
      assert RunChunks(me, s2, []) == Update(s2, []);
    }
    RunChunksAppend(me, s0, head, cs + [FullLiveText(t)]);
    ResyncConverges(me, s2, cs, t);
    assert head + cs + [FullLiveText(t)] == head + (cs + [FullLiveText(t)]);
  }

  /** Resync requests coalesce: once resync is in progress, no run of
      chunks short of a full live text publishes anything. */
  lemma ResyncPublishesNothing(me: Identity, st: Replica, cs: seq<Chunk>)
    requires st.resyncing
    requires forall i :: 0 <= i < |cs| ==> !cs[i].FullLiveText?
    ensures RunChunks(me, st, cs).effects == []
  {
    ResyncHolds(me, st, cs);
  }

  /** On the channel: once resync is pending, messages that are not an
      addressed `-3|` chunk publish nothing, and the first such chunk `-3|T`
      sets the line to `T` with the history untouched. */
  lemma ResyncConvergesOnChannel(me: Identity, st: Replica, ms: seq<Message>, t: string)
    requires st.resyncing
    requires forall i :: 0 <= i < |ms| ==> !Read(me, ms[i]).FullLiveText?
    ensures Run(me, st, ms + [Message(me.clientId, "-3|" + t)])
              == Update(Replica(Text(t, st.text.past), false), [])
  {
    var fin := Message(me.clientId, "-3|" + t);
    var cs := ReadAll(me, ms);
    RunIsRunChunks(me, st, ms + [fin]);
    ReadFinal(me, t);
    ReadAllAppend(me, ms, fin);
    ReadAllNotFull(me, ms);
    ResyncConverges(me, st, cs, t);
  }

  lemma ReadAllNotFull(me: Identity, ms: seq<Message>)
    requires forall i :: 0 <= i < |ms| ==> !Read(me, ms[i]).FullLiveText?
    ensures forall i :: 0 <= i < |ReadAll(me, ms)| ==> !ReadAll(me, ms)[i].FullLiveText?
  {
  }

  lemma ReadFinal(me: Identity, t: string)
    ensures Read(me, Message(me.clientId, "-3|" + t)) == FullLiveText(t)
  {
    AddressedCases(me.clientId);
    ParseFullLiveText(t);
  }

  lemma ReadAllAppend(me: Identity, ms: seq<Message>, m: Message)
    ensures ReadAll(me, ms + [m]) == ReadAll(me, ms) + [Read(me, m)]
  {
  }
}
