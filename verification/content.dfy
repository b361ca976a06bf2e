/** The listener's content channel: the text replica (the current line and
    the committed history), the page-wide resync flag, the reread request
    that sets it, and the chunk handler that updates the replica. */
module Content {
  import opened Wrappers
  import opened Strings
  import opened JsNumber
  import opened Channel
  import opened ControlPacket

  /** The content view's state: `live` is the line being typed, `past` the
      committed lines, newest first. */
  datatype Text = Text(live: string, past: string)

  /** The text together with the resync flag (the bundle's global `R`). */
  datatype Replica = Replica(text: Text, resyncing: bool)

  /** The replica after a chunk, and the effects the chunk caused. */
  datatype Update = Update(replica: Replica, effects: seq<Effect>)

  /** The reread request the listener publishes: code `-40`, then `live`. */
  const RereadRequestData := CodeOf(RequestReread) + "|live"

  /** JavaScript concatenates a missing split field as this text. */
  const UndefinedText := "undefined"

  function RereadEffect(me: Identity): Effect {
    Publish(ControlChannel(me.conversationId), SpeakerName, RereadRequestData)
  }

  /** The reread closure: publish a request unless one is outstanding,
      and mark resync in progress either way. */
  function Reread(me: Identity, resyncing: bool): (r: (bool, seq<Effect>))
    ensures r.0
    ensures |r.1| <= 1
    ensures r.1 != [] <==> !resyncing
    ensures r.1 != [] ==> r.1 == [RereadEffect(me)]
  {
    if resyncing then (true, []) else (true, [RereadEffect(me)])
  }

  /** Triggering reread any number of times from one state publishes at most
      one request: triggers after the first find resync in progress. */
  lemma {:induction false} RereadCoalesces(me: Identity, resyncing: bool, n: nat)
    requires n >= 1
    ensures RereadTimes(me, resyncing, n) == (true, if resyncing then [] else [RereadEffect(me)])
    decreases n
  {
    var first := Reread(me, resyncing);
    assert first.0;
    if n == 1 {
      assert RereadTimes(me, true, 0) == (true, []);
    } else {
      RereadCoalesces(me, true, n - 1);
    }
    assert RereadTimes(me, resyncing, n) == (RereadTimes(me, true, n - 1).0, first.1 + RereadTimes(me, true, n - 1).1);
    assert first.1 + [] == first.1;
  }

  /** `n` successive reread triggers, collecting what they publish. */
  function RereadTimes(me: Identity, resyncing: bool, n: nat): (bool, seq<Effect>)
    decreases n
  {
    if n == 0 then (resyncing, [])
    else
      var first := Reread(me, resyncing);
      var rest := RereadTimes(me, first.0, n - 1);
      (rest.0, first.1 + rest.1)
  }

  /** The classifier `k`: a diff-class chunk begins with `-1` or does not
      begin with `-` at all. */
  predicate IsDiffChunk(data: string) {
    StartsWith(data, "-1") || !StartsWith(data, "-")
  }

  /** The classifier's verdict on the chunk forms: `-1…` (commits and
      negative offsets), numerals and the empty string are diffs; the reset,
      full-text, past-line and sound chunks and any other `-` start are
      not. */
  lemma DiffClassifier(t: string)
    ensures IsDiffChunk("-1" + t) && IsDiffChunk("") && IsDiffChunk("0|" + t)
    ensures !IsDiffChunk("-2|" + t) && !IsDiffChunk("-3|" + t) && !IsDiffChunk("-4|" + t)
    ensures !IsDiffChunk("-7|" + t) && !IsDiffChunk("-")
    ensures forall d :: |d| > 0 && d[0] != '-' ==> IsDiffChunk(d)
  {
    assert ("-1" + t)[..2] == "-1";
    assert ("0|" + t)[0] == '0';
    assert ("-2|" + t)[0] == '-' && ("-2|" + t)[1] == '2';
    assert ("-3|" + t)[0] == '-' && ("-3|" + t)[1] == '3';
    assert ("-4|" + t)[0] == '-' && ("-4|" + t)[1] == '4';
    assert ("-7|" + t)[0] == '-' && ("-7|" + t)[1] == '7';
  }

  /** JavaScript `s.substring(0, end)` for `end <= |s|`: a negative end
      is taken as 0. */
  function Keep(s: string, end: int): (r: string)
    requires end <= |s|
    ensures end <= 0 ==> r == ""
    ensures end >= 0 ==> r == s[..end]
  {
    if end < 0 then "" else s[..end]
  }

  /** The offset test of a suffix replace: `NaN`, 0 and anything past the
      end of the current line send the listener into resync. */
  predicate OffsetFits(offset: Option<int>, live: string) {
    offset.Some? && offset.value != 0 && offset.value <= |live|
  }

  /** The operands of a suffix replace `N|text`: `parseInt` of the text
      before the first `|`, and the text between the first and second `|`
      (`split("|", 2)`), or `undefined` when there is no `|`. */
  function SuffixOperands(data: string): (Option<int>, string) {
    var parts := Split(data, '|');
    (ParseInt(parts[0]), if |parts| >= 2 then parts[1] else UndefinedText)
  }

  /** The operands read back: with no `|` the whole chunk is parsed and the
      text is `undefined`; otherwise the number is parsed from the text
      before the first `|` and the text is what follows it, up to a second
      `|` or the end. */
  lemma SuffixOperandsMeaning(data: string)
    ensures '|' !in data ==> SuffixOperands(data) == (ParseInt(data), UndefinedText)
    ensures '|' in data ==>
              var i := IndexOf(data, '|');
              var t := SuffixOperands(data).1;
              && i < |data| && '|' !in data[..i]
              && SuffixOperands(data).0 == ParseInt(data[..i])
              && '|' !in t && i + 1 + |t| <= |data| && data[i + 1..i + 1 + |t|] == t
              && (i + 1 + |t| == |data| || data[i + 1 + |t|] == '|')
  {
    IndexOfFirst(data, '|');
    var i := IndexOf(data, '|');
    if i == |data| {
      OperandsWithoutSeparator(data);
    } else {
      assert '|' in data;
      OperandsAtSeparator(data, i);
    }
  }

  lemma OperandsWithoutSeparator(data: string)
    requires IndexOf(data, '|') == |data|
    ensures SuffixOperands(data) == (ParseInt(data), UndefinedText)
  {
    SplitFront(data, '|');
    assert data[..|data|] == data;
  }

  lemma OperandsAtSeparator(data: string, i: nat)
    requires i < |data| && i == IndexOf(data, '|')
    ensures var t := SuffixOperands(data).1;
            && SuffixOperands(data).0 == ParseInt(data[..i])
            && '|' !in t && i + 1 + |t| <= |data| && data[i + 1..i + 1 + |t|] == t
            && (i + 1 + |t| == |data| || data[i + 1 + |t|] == '|')
  {
    SplitFront(data, '|');
    var rest := data[i + 1..];
    var t := Split(rest, '|')[0];
    assert SuffixOperands(data) == (ParseInt(data[..i]), t);
    FieldAfterSeparator(rest, '|');
    assert |t| <= |rest| && rest[..|t|] == t;
    assert data[i + 1..i + 1 + |t|] == rest[..|t|];
    assert i + 1 + |t| < |data| ==> data[i + 1 + |t|] == rest[|t|];
  }

  /** Normal-mode suffix replace, the branch that is neither `0|` nor `-1|`. */
  function ApplySuffix(me: Identity, st: Replica, offset: Option<int>, payload: string): (r: Update)
    ensures !OffsetFits(offset, st.text.live) ==>
              r.replica.text == st.text && r.replica.resyncing
              && r.effects == Reread(me, st.resyncing).1
    ensures OffsetFits(offset, st.text.live) ==>
              r.replica.text.past == st.text.past && r.replica.resyncing == st.resyncing && r.effects == []
              && (offset.value > 0 ==> r.replica.text.live == st.text.live[..offset.value] + payload)
              && (offset.value < 0 ==> r.replica.text.live == payload)
  {
    if !OffsetFits(offset, st.text.live) then
      var (flag, effects) := Reread(me, st.resyncing);
      Update(Replica(st.text, flag), effects)
    else
      Update(Replica(Text(Keep(st.text.live, offset.value) + payload, st.text.past), st.resyncing), [])
  }

  /** The content-channel handler, branch for branch in the bundle's order. */
  function HandleContent(me: Identity, st: Replica, m: Message): Update {
    var data := m.data;
    var text := st.text;
    if !Addressed(m.name, me.clientId) then Update(st, [])
    else if StartsWith(data, "-7|") then Update(st, [])
    else if st.resyncing then
      if StartsWith(data, "-4|") then Update(Replica(Text("", text.past), true), [])
      else if IsDiffChunk(data) then Update(st, [])
      // A `-1|` chunk is already a diff chunk and stops at the test above,
      // so only `-2|` reaches this one; the bundle makes the same test.
      else if StartsWith(data, "-1|") || StartsWith(data, "-2|") then Update(st, [])
      else if StartsWith(data, "-3|") then Update(Replica(Text(data[3..], text.past), false), [])
      else Update(st, [])
    else if IsDiffChunk(data) then
      if StartsWith(data, "0|") then Update(Replica(Text(data[2..], text.past), false), [])
      else if StartsWith(data, "-1|") then Update(Replica(Text("", text.live + "\n" + text.past), false), [])
      else
        var (offset, payload) := SuffixOperands(data);
        ApplySuffix(me, st, offset, payload)
    else Update(st, [])
  }

  /** A content chunk read once into a closed set of operations. */
  datatype Chunk =
    | SoundCue(name: string)
    | ResetAck
    | FullReplace(text: string)
    | CommitLine
    | SuffixReplace(offset: Option<int>, text: string)
    | PastLine
    | FullLiveText(text: string)
    | Unrecognized

  function ParseChunk(data: string): Chunk {
    if StartsWith(data, "-7|") then SoundCue(data[3..])
    else if StartsWith(data, "-4|") then ResetAck
    else if IsDiffChunk(data) then
      if StartsWith(data, "0|") then FullReplace(data[2..])
      else if StartsWith(data, "-1|") then CommitLine
      else
        var (offset, payload) := SuffixOperands(data);
        SuffixReplace(offset, payload)
    else if StartsWith(data, "-2|") then PastLine
    else if StartsWith(data, "-3|") then FullLiveText(data[3..])
    else Unrecognized
  }

  /** A chunk's effect, by mode: diff operations act only in normal mode,
      the reset acknowledgement and the full live text only in resync. */
  function Apply(me: Identity, st: Replica, c: Chunk): Update {
    var text := st.text;
    match c
    case ResetAck =>
      if st.resyncing then Update(Replica(Text("", text.past), true), []) else Update(st, [])
    case FullLiveText(t) =>
      if st.resyncing then Update(Replica(Text(t, text.past), false), []) else Update(st, [])
    case FullReplace(t) =>
      if st.resyncing then Update(st, []) else Update(Replica(Text(t, text.past), false), [])
    case CommitLine =>
      if st.resyncing then Update(st, [])
      else Update(Replica(Text("", text.live + "\n" + text.past), false), [])
    case SuffixReplace(offset, t) =>
      if st.resyncing then Update(st, []) else ApplySuffix(me, st, offset, t)
    case _ => Update(st, [])
  }

  /** Reading a chunk inverts its wire form: each chunk kind comes only
      from data with that kind's prefix, and the text a chunk carries is
      the data after that prefix. */
  lemma ParseChunkInverse(data: string)
    ensures var c := ParseChunk(data);
            && (c.SoundCue? ==> data == "-7|" + c.name)
            && (c.ResetAck? ==> StartsWith(data, "-4|"))
            && (c.FullReplace? ==> data == "0|" + c.text)
            && (c.CommitLine? ==> StartsWith(data, "-1|"))
            && (c.SuffixReplace? ==> IsDiffChunk(data) && !StartsWith(data, "0|") && !StartsWith(data, "-1|")
                                     && (c.offset, c.text) == SuffixOperands(data))
            && (c.PastLine? ==> StartsWith(data, "-2|"))
            && (c.FullLiveText? ==> data == "-3|" + c.text)
            && (c.Unrecognized? ==> !IsDiffChunk(data) && !StartsWith(data, "-2|") && !StartsWith(data, "-3|")
                                    && !StartsWith(data, "-4|") && !StartsWith(data, "-7|"))
  {
    var c := ParseChunk(data);
    if c.SoundCue? || c.FullLiveText? {
      assert data == data[..3] + data[3..];
    } else if c.FullReplace? {
      assert data == data[..2] + data[2..];
    }
  }

  /** The content handler ignores messages for other clients, keeps the
      history or prepends the line to it, and publishes nothing but one
      reread request, only from normal mode, entering resync with the text
      untouched. */
  lemma HandleContentShape(me: Identity, st: Replica, m: Message)
    ensures !Addressed(m.name, me.clientId) ==> HandleContent(me, st, m) == Update(st, [])
    ensures var r := HandleContent(me, st, m);
            || r.replica.text.past == st.text.past
            || (r.replica.text.past == st.text.live + "\n" + st.text.past && r.replica.text.live == "")
    ensures var r := HandleContent(me, st, m);
            r.effects == [] || (r.effects == [RereadEffect(me)] && !st.resyncing && r.replica.resyncing
                                && r.replica.text == st.text)
    ensures st.resyncing ==> HandleContent(me, st, m).replica.text.past == st.text.past
  {
    HandleIsParseThenApply(me, st, m);
    ApplyShape(me, st, ParseChunk(m.data));
  }

  /** The handler is the address filter followed by parse-then-apply. */
  lemma HandleIsParseThenApply(me: Identity, st: Replica, m: Message)
    ensures HandleContent(me, st, m) ==
              if Addressed(m.name, me.clientId) then Apply(me, st, ParseChunk(m.data)) else Update(st, [])
  {
  }

  /** Apply ignores chunks that are not for this mode. */
  lemma ApplyUnrecognized(me: Identity, st: Replica)
    ensures Apply(me, st, Unrecognized) == Update(st, [])
  {
  }

  // ---------------------------------------------------------------------
  // Reading chunks

  lemma ParseFullReplace(t: string)
    ensures ParseChunk("0|" + t) == FullReplace(t)
  {
    var d := "0|" + t;
    assert d[0] == '0' && d[1] == '|';
    assert d[2..] == t;
  }

  lemma ParseCommit(t: string)
    ensures ParseChunk("-1|" + t) == CommitLine
  {
    var d := "-1|" + t;
    assert d[0] == '-' && d[1] == '1' && d[2] == '|';
  }

  lemma ParseFullLiveText(t: string)
    ensures ParseChunk("-3|" + t) == FullLiveText(t)
  {
    var d := "-3|" + t;
    assert d[0] == '-' && d[1] == '3' && d[2] == '|';
    assert d[3..] == t;
  }

  lemma ParseResetAck(t: string)
    ensures ParseChunk("-4|" + t) == ResetAck
  {
    var d := "-4|" + t;
    assert d[0] == '-' && d[1] == '4' && d[2] == '|';
  }

  lemma ParseSoundCue(t: string)
    ensures ParseChunk("-7|" + t) == SoundCue(t)
  {
    var d := "-7|" + t;
    assert d[0] == '-' && d[1] == '7' && d[2] == '|';
    assert d[3..] == t;
  }

  lemma ParsePastLine(t: string)
    ensures ParseChunk("-2|" + t) == PastLine
  {
    var d := "-2|" + t;
    assert d[0] == '-' && d[1] == '2' && d[2] == '|';
  }

  /** A numeral holds no separator and starts with a digit. */
  lemma NumeralShape(n: nat)
    ensures '|' !in DecimalString(n)
    ensures '0' <= DecimalString(n)[0] <= '9'
  {
    var d := DecimalString(n);
    assert forall j :: 0 <= j < |d| ==> d[j] != '|';
  }

  /** `N|rest` with `N` a positive numeral is a suffix replace at offset
      `N` whose text is `rest` up to its first `|`; `0|rest` is a full
      replace of the whole of `rest`. */
  lemma ParseSuffix(n: nat, rest: string)
    ensures n > 0 ==> ParseChunk(DecimalString(n) + "|" + rest)
                        == SuffixReplace(Some(n), Split(rest, '|')[0])
    ensures n == 0 ==> ParseChunk(DecimalString(n) + "|" + rest) == FullReplace(rest)
  {
    if n == 0 {
      ParseFullReplace(rest);
    } else {
      ParsePositiveSuffix(n, rest);
    }
  }

  lemma ParsePositiveSuffix(n: nat, rest: string)
    requires n > 0
    ensures ParseChunk(DecimalString(n) + "|" + rest) == SuffixReplace(Some(n), Split(rest, '|')[0])
  {
    var d := DecimalString(n);
    var data := d + "|" + rest;
    NumeralShape(n);
    assert data[0] == d[0] && d[0] != '-' && d[0] != '0';
    assert !StartsWith(data, "-") && !StartsWith(data, "0|");
    NumeralOperands(n, rest);
  }

  /** The operands of `N|rest` are `N` and `rest` up to its first `|`. */
  lemma NumeralOperands(n: nat, rest: string)
    ensures SuffixOperands(DecimalString(n) + "|" + rest) == (Some(n), Split(rest, '|')[0])
  {
    var d := DecimalString(n);
    NumeralShape(n);
    assert d + "|" + rest == d + ['|'] + rest;
    SplitAfterFirst(d, '|', rest);
    ParseDecimal(n);
  }

  /** The forms the diff stream carries are read back as the chunk they
      name; in a suffix replace, text after a second `|` is dropped. */
  lemma ParseSuffixText(n: nat, a: string, b: string)
    requires n > 0 && '|' !in a
    ensures ParseChunk(DecimalString(n) + "|" + a) == SuffixReplace(Some(n), a)
    ensures ParseChunk(DecimalString(n) + "|" + a + "|" + b) == SuffixReplace(Some(n), a)
  {
    ParseSuffix(n, a);
    SplitJoin([a], '|');
    ParseSuffix(n, a + "|" + b);
    assert DecimalString(n) + "|" + a + "|" + b == DecimalString(n) + "|" + (a + "|" + b);
    assert a + "|" + b == a + ['|'] + b;
    SplitAfterFirst(a, '|', b);
  }

  /** A diff-class chunk with no `|` at all is a suffix replace whose text is
      the word `undefined`, as JavaScript concatenates a missing field. */
  lemma ParseWithoutSeparator(data: string)
    requires '|' !in data && IsDiffChunk(data)
    ensures ParseChunk(data) == SuffixReplace(ParseInt(data), UndefinedText)
  {
    SplitJoin([data], '|');
    NoSeparatorNoPrefix(data, "-7|", '|');
    NoSeparatorNoPrefix(data, "-4|", '|');
    NoSeparatorNoPrefix(data, "-1|", '|');
    NoSeparatorNoPrefix(data, "0|", '|');
  }

  /** The classifier takes every chunk beginning `-1` as a diff: `-12|text`
      is a suffix replace at offset -12. */
  lemma ParseNegativeOffset(t: string)
    requires '|' !in t
    ensures ParseChunk("-12|" + t) == SuffixReplace(Some(-12), t)
  {
    var data := "-12|" + t;
    assert data[0] == '-' && data[1] == '1' && data[2] == '2' && data[3] == '|';
    assert ParseChunk(data) == SuffixReplace(SuffixOperands(data).0, SuffixOperands(data).1) by {
      assert IsDiffChunk(data);
      assert !StartsWith(data, "-7|") && !StartsWith(data, "-4|");
      assert !StartsWith(data, "0|") && !StartsWith(data, "-1|");
    }
    assert SuffixOperands(data) == (Some(-12), t) by {
      assert data == "-12" + ['|'] + t;
      SplitAfterFirst("-12", '|', t);
      SplitJoin([t], '|');
      MinusTwelve();
    }
  }

  lemma MinusTwelve()
    ensures ParseInt("-12") == Some(-12)
  {
    var body := "12";
    assert "-12"[1..] == body;
    assert DigitRun(body, 10) == 2;
    assert body[..2] == body;
    assert body[..1] == "1";
    assert ValueOf(body, 10) == 12;
  }

  // ---------------------------------------------------------------------
  // Applying one chunk

  /** Normal-mode suffix replace: an offset that is `NaN`, 0 or past the end
      of the line requests a reread and keeps the text; any other offset
      keeps that many leading characters of the line (none when it is
      negative) and appends the text, keeping the history. */
  lemma SuffixReplaceNormal(me: Identity, st: Replica, offset: Option<int>, t: string)
    requires !st.resyncing
    ensures var r := Apply(me, st, SuffixReplace(offset, t));
            && (!OffsetFits(offset, st.text.live) ==>
                  r == Update(Replica(st.text, true), [RereadEffect(me)]))
            && (OffsetFits(offset, st.text.live) ==>
                  r == Update(Replica(Text((if offset.value < 0 then "" else st.text.live[..offset.value]) + t,
                                           st.text.past), false), []))
  {
  }

  /** A suffix replace keeps the line's first `N` characters. */
  lemma SuffixKeepsPrefix(me: Identity, st: Replica, n: nat, t: string)
    requires !st.resyncing && 0 < n <= |st.text.live|
    ensures var live' := Apply(me, st, SuffixReplace(Some(n), t)).replica.text.live;
            |live'| == n + |t| && live'[..n] == st.text.live[..n] && live'[n..] == t
  {
  }

  /** A commit in normal mode clears the line and prepends it to history. */
  lemma CommitNormal(me: Identity, st: Replica)
    requires !st.resyncing
    ensures Apply(me, st, CommitLine) == Update(Replica(Text("", st.text.live + "\n" + st.text.past), false), [])
  {
  }

  /** Resync mode: full replaces, commits and suffix replaces change nothing;
      a reset acknowledgement clears the line and keeps history and resync;
      a full live text sets the line, keeps history and ends resync. */
  lemma ResyncMode(me: Identity, st: Replica, c: Chunk)
    requires st.resyncing
    ensures c.FullReplace? || c.CommitLine? || c.SuffixReplace? ==> Apply(me, st, c) == Update(st, [])
    ensures c.ResetAck? ==> Apply(me, st, c) == Update(Replica(Text("", st.text.past), true), [])
    ensures c.FullLiveText? ==> Apply(me, st, c) == Update(Replica(Text(c.text, st.text.past), false), [])
  {
  }

  /** Sound cues and past-line chunks never change anything; reset
      acknowledgements and full live texts change nothing in normal mode. */
  lemma IgnoredChunks(me: Identity, st: Replica, c: Chunk)
    requires c.SoundCue? || c.PastLine? || c.Unrecognized? || (!st.resyncing && (c.ResetAck? || c.FullLiveText?))
    ensures Apply(me, st, c) == Update(st, [])
  {
  }

  /** Every chunk keeps the history or prepends the current line to it, and
      only normal-mode chunks publish, and then only the reread request. */
  lemma ApplyShape(me: Identity, st: Replica, c: Chunk)
    ensures var r := Apply(me, st, c);
            || r.replica.text.past == st.text.past
            || (r.replica.text.past == st.text.live + "\n" + st.text.past && r.replica.text.live == "")
    ensures var r := Apply(me, st, c);
            r.effects == [] || (r.effects == [RereadEffect(me)] && !st.resyncing && r.replica.resyncing
                                && r.replica.text == st.text)
    ensures st.resyncing ==> Apply(me, st, c).replica.text.past == st.text.past
  {
  }

  // ---------------------------------------------------------------------
  // Handling one message

  /** Messages for another client change nothing. */
  lemma UnaddressedIgnored(me: Identity, st: Replica, m: Message)
    requires !Addressed(m.name, me.clientId)
    ensures HandleContent(me, st, m) == Update(st, [])
  {
  }

  /** Normal mode, message `N|text` for this client: an offset inside the
      line keeps its first `N` characters and appends the text (text after
      a second `|` dropped); offset 0 replaces the line; an offset past the
      end publishes one reread request and leaves the text untouched. */
  lemma SuffixMessageNormal(me: Identity, live: string, past: string, n: nat, t: string)
    requires '|' !in t
    ensures var r := HandleContent(me, Replica(Text(live, past), false), Message(me.clientId, DecimalString(n) + "|" + t));
            && (0 < n <= |live| ==> r == Update(Replica(Text(live[..n] + t, past), false), []))
            && (n == 0 ==> r == Update(Replica(Text(t, past), false), []))
            && (n > |live| ==> r == Update(Replica(Text(live, past), true), [RereadEffect(me)]))
  {
    var st := Replica(Text(live, past), false);
    var m := Message(me.clientId, DecimalString(n) + "|" + t);
    AddressedCases(me.clientId);
    HandleIsParseThenApply(me, st, m);
    ParseSuffix(n, t);
    SplitJoin([t], '|');
  }

  /** Any normal-mode message taken by the suffix branch: with `s` the
      `parseInt` of the text before the first `|`, `NaN`, 0 and `s` past the
      end request a reread and keep the text; otherwise the line becomes its
      first `s` characters (none when `s` is negative) followed by the text
      between the first and second `|`, and the history is kept. */
  lemma SuffixMessageAny(me: Identity, st: Replica, m: Message)
    requires Addressed(m.name, me.clientId) && !st.resyncing
    requires IsDiffChunk(m.data) && !StartsWith(m.data, "0|") && !StartsWith(m.data, "-1|")
    ensures var parts := Split(m.data, '|');
            var s := ParseInt(parts[0]);
            var payload := if |parts| >= 2 then parts[1] else UndefinedText;
            var r := HandleContent(me, st, m);
            && (!OffsetFits(s, st.text.live) ==>
                  r == Update(Replica(st.text, true), [RereadEffect(me)]))
            && (OffsetFits(s, st.text.live) ==>
                  r.effects == [] && !r.replica.resyncing && r.replica.text.past == st.text.past
                  && r.replica.text.live == (if s.value < 0 then "" else st.text.live[..s.value]) + payload)
  {
  }

  /** Normal mode, `-1|` for this client: the line is committed. */
  lemma CommitMessage(me: Identity, live: string, past: string, t: string)
    ensures HandleContent(me, Replica(Text(live, past), false), Message(me.clientId, "-1|" + t))
              == Update(Replica(Text("", live + "\n" + past), false), [])
  {
    AddressedCases(me.clientId);
    HandleIsParseThenApply(me, Replica(Text(live, past), false), Message(me.clientId, "-1|" + t));
    ParseCommit(t);
  }

  /** Resync mode: `-4|` clears the line and keeps history and the flag;
      `-3|T` sets the line to `T`, keeps history and ends resync. */
  lemma ResyncMessages(me: Identity, st: Replica, rest: string, t: string)
    requires st.resyncing
    ensures HandleContent(me, st, Message(me.clientId, "-4|" + rest))
              == Update(Replica(Text("", st.text.past), true), [])
    ensures HandleContent(me, st, Message(me.clientId, "-3|" + t))
              == Update(Replica(Text(t, st.text.past), false), [])
  {
    AddressedCases(me.clientId);
    HandleIsParseThenApply(me, st, Message(me.clientId, "-4|" + rest));
    HandleIsParseThenApply(me, st, Message(me.clientId, "-3|" + t));
    ParseResetAck(rest);
    ParseFullLiveText(t);
  }

  /** Resync mode: every diff-class message leaves the replica alone. */
  lemma ResyncIgnoresDiffs(me: Identity, st: Replica, m: Message)
    requires st.resyncing && IsDiffChunk(m.data)
    ensures HandleContent(me, st, m) == Update(st, [])
  {
  }
}
