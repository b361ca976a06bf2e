# Live-text relay: listener protocol and token decisions

This project models two parts of the relay in Dafny.

The first is the listener web page. It joins a speaker's conversation over a publish/subscribe transport.

- **Control codec.** Control packets are seven `|`-separated fields: a signed kind code (`-20` whisper offer … `-26` listen offer, `-40` reread request), then conversation id, conversation name, client id, profile id, user name and content id.
- **Address filter.** A message is acted on only when its name, upper-cased, is the client's id upper-cased, or is `ALL`.
- **Handshake.** The status starts at `initial`. A whisper offer answers with a listen request and moves to `requesting`. A `listenAuthYes` whose content id is 36 characters from `[A-Za-z0-9-]` makes that id the status, which shows the content view. `listenAuthNo` moves to `denied` and schedules a teardown. `dropping` tears down.
- **Diff engine.** The content channel keeps a current line (`live`) and the committed lines, newest first (`past`):
  - `0|` replaces the line.
  - `-1|` commits it.
  - `N|text` keeps the first `N` characters and appends `text`.
  - `-7|` is a sound cue that is ignored.
  - An offset that is `NaN`, 0 or past the end of the line calls the reread closure. The closure publishes `-40|live` once and enters resync mode (the page-global flag `R`).
  - In resync mode diffs are ignored, `-4|` clears the line and `-3|T` sets it to `T` and ends resync.
- **One-shot helper.** `y(fn, key, n)` runs `fn` only while a page-global counter for `key` is below `n`. The page uses it to send the listen offer once and the first reread once.

The second is three decision rules of the server's routes:

- **Token requests.** The ordered checks of the publish/subscribe token request handler:
  - the body check;
  - the user name write;
  - the `Bearer` header check;
  - the JWT check;
  - the activity check;
  - the self-subscription and impersonation checks;
  - issuing a token.
- **Subscription links.** The redirect of a subscription link.
- **Device tokens.** The change test of the device-token handler.

The listener is modelled as pure step functions over immutable state:

- `ControlPacket` is the codec.
- `Channel` holds messages, effects and the address filter.
- `ListenerControl` is the handshake.
- `Content` is the diff engine and the reread closure.
- `ContentRuns` holds runs of chunks.
- `OneShot` is the helper `y`.
- `Listener` is the whole page: status, text, flag, one-shot counters, teardown.

Transport publishes, alerts and timers are `Effect` values that a step returns. JavaScript's `split`, `startsWith`, `substring` and `parseInt` are modelled on their own in `Strings` and `JsNumber`. `parseInt` follows section 19.2.5 of ECMA-262: leading white space, sign, `0x` prefix, longest digit run, `NaN` as `None`.

Three behaviours of the code that a reader might not expect, each kept by the model:

- **Offset equal to the line length.** The suffix test is `s > live.length`, so that offset is accepted and appends. It does not request a reread.
- **Chunks beginning `-1`.** The classifier treats every chunk that begins `-1`, and not only `-1|`, as a diff. So `-12|t` is a suffix replace at offset −12. `substring(0, -12)` is empty, so the line becomes `t` (`Content.ParseNegativeOffset`).
- **Chunks with no `|`.** A diff chunk with no `|` has no second field, and JavaScript concatenates the missing field as the word `undefined` (`Content.ParseWithoutSeparator`).

## Model

In the table, "code `c` then text `t`" (or "numeral `N` then `t`") means the chunk `c`, the `|` separator, and `t`; "the separator" is `|`.

| member | source | states |
|---|---|---|
| `ControlPacket.CodeRoundTrip` | back-end/public/listen/index2.950c27bd.js:1 | The decoder's code switch and `$` are inverse: every kind's code decodes to that kind, and a code decodes to a kind only if it is that kind's code |
| `ControlPacket.CodeOf` | back-end/public/listen/index2.950c27bd.js:1 | Every kind's wire code is three characters, starts with `-` and holds no separator |
| `ControlPacket.KindOfCode` | back-end/public/listen/index2.950c27bd.js:1 | A code the decoder's switch accepts is the code of the kind it names |
| `ControlPacket.Decode` | back-end/public/listen/index2.950c27bd.js:1 | A packet is accepted exactly when splitting on the separator gives seven fields and field 0 is a known code; then the packet's fields are the split fields in order |
| `ControlPacket.DecodeEncode` | back-end/public/listen/index2.950c27bd.js:1 | Decoding the encoding of any packet whose text fields hold no separator gives the packet back |
| `ControlPacket.EncodeDecode` | back-end/public/listen/index2.950c27bd.js:1 | Every accepted string is the encoding of the packet it decodes to, and that packet has no separator in any field |
| `ControlPacket.EncodeDecodesIff` | back-end/public/listen/index2.950c27bd.js:1 | An encoding is accepted by the decoder exactly when no field holds the separator, and then decodes to the packet itself |
| `ControlPacket.EncodeSpelledOut` | back-end/public/listen/index2.950c27bd.js:1 | The encoding is the seven fields joined by the separator, as the listener's template strings write them |
| `Strings.SplitJoinsBack` | back-end/public/listen/index2.950c27bd.js:1 | `split` pieces hold no separator and join back to the input |
| `Strings.SplitJoin` | back-end/public/listen/index2.950c27bd.js:1 | `split` undoes joining fields that hold no separator |
| `Strings.SplitAfterFirst` | back-end/public/listen/index2.950c27bd.js:1 | Splitting at the first separator peels off the text before it, which is what `split` with limit 2 keeps as its first field |
| `Strings.IndexOfFirst` | back-end/public/listen/index2.950c27bd.js:1 | The separator search finds the first occurrence |
| `Strings.SplitCount` | back-end/public/listen/index2.950c27bd.js:1 | `split` gives exactly one more piece than the string has separators |
| `Strings.JoinCount` | back-end/public/listen/index2.950c27bd.js:1 | Joining `n` fields puts in at least `n - 1` separators, and at least `n` once some field holds one |
| `Strings.SplitFront` | back-end/public/listen/index2.950c27bd.js:1 | The first `split` piece runs to the first separator; when there is one, the second piece is the first piece of the text after it |
| `Strings.FieldAfterSeparator` | back-end/public/listen/index2.950c27bd.js:1 | The first `split` piece is a separator-free prefix ending at a separator or at the end of the string |
| `Channel.AddressedCases` | back-end/public/listen/index2.950c27bd.js:1 | The filter admits this client's id as given, all upper-case and all lower-case, and the broadcast name as `all`, `All` and `ALL` |
| `Channel.AddressedIff` | back-end/public/listen/index2.950c27bd.js:1 | A name is admitted exactly when it matches the client id character by character up to letter case, or spells `ALL` in any case; any other length is refused |
| `Channel.AddressedExamples` | back-end/public/listen/index2.950c27bd.js:1 | Mixed case is admitted; another id, an id sharing a prefix, a longer or shorter name and other broadcast-like names are refused |
| `ListenerControl.HandleControl` | back-end/public/listen/index2.950c27bd.js:1 | An unaddressed message changes nothing and publishes nothing; an addressed undecodable one sets the invalid-packet notice and nothing else; an addressed listen request, joining, listen offer or reread packet changes nothing; a granted status always carries a well-shaped id |
| `ListenerControl.ShowsContentIffGranted` | back-end/public/listen/index2.950c27bd.js:1 | The `^[A-Za-z0-9-]{36}$` test on the status string holds exactly in the granted states |
| `ListenerControl.GrantOnlyByValidAuthYes` | back-end/public/listen/index2.950c27bd.js:1 | The status becomes a content id only through an addressed, decodable `listenAuthYes` carrying that id, and only a well-shaped id |
| `ListenerControl.AuthYesOutcome` | back-end/public/listen/index2.950c27bd.js:1 | `listenAuthYes` with a well-shaped id sets it as status with no effect; with a malformed id it alerts and tears down, leaving the status |
| `ListenerControl.RefusalAndDropOutcome` | back-end/public/listen/index2.950c27bd.js:1 | `listenAuthNo` shows `denied` and schedules one teardown after 1000 ms; `dropping` tears down at once and keeps the status |
| `ListenerControl.WhisperOfferAnswered` | back-end/public/listen/index2.950c27bd.js:1 | A control message publishes iff it is an addressed whisper offer; then the status is `requesting` and exactly one listen request goes to the offering client; it decodes iff the listener's conversation id, client id and name hold no separator, and then to this listener's request |
| `ListenerControl.ListenOfferDecodes` | back-end/public/listen/index2.950c27bd.js:1 | The listen offer the page sends decodes iff the conversation id and client id hold no separator, and then to itself |
| `JsNumber.TrimStartDropsWhiteSpace` | back-end/public/listen/index2.950c27bd.js:1 | `parseInt`'s trim removes exactly the leading white space |
| `JsNumber.DigitRunLongest` | back-end/public/listen/index2.950c27bd.js:1 | `parseInt` reads the longest run of digits |
| `JsNumber.DigitRunAll` | back-end/public/listen/index2.950c27bd.js:1 | An all-digit string is read whole |
| `JsNumber.DecimalString` | back-end/public/listen/index2.950c27bd.js:1 | A numeral is all digits with a leading zero only for 0 |
| `JsNumber.ValueOfDecimal` | back-end/public/listen/index2.950c27bd.js:1 | The digits of a numeral evaluate back to its number |
| `JsNumber.ParseDecimal` | back-end/public/listen/index2.950c27bd.js:1 | `parseInt` of the decimal numeral of `n` is `n` |
| `JsNumber.ParseIntNaN` | back-end/public/listen/index2.950c27bd.js:1 | `parseInt` gives `NaN` for the empty string and for one starting with anything but white space, a sign or a decimal digit |
| `JsNumber.ParseIntSign` | back-end/public/listen/index2.950c27bd.js:1 | A leading `-` negates what follows (and keeps `NaN`); a leading `+` changes nothing |
| `JsNumber.TrimStartSkips` | back-end/public/listen/index2.950c27bd.js:1 | Trimming a white-space prefix off the front leaves what trimming the rest leaves |
| `JsNumber.ParseIntSkipsWhiteSpace` | back-end/public/listen/index2.950c27bd.js:1 | Leading white space does not change what `parseInt` reads |
| `JsNumber.DigitRunStops` | back-end/public/listen/index2.950c27bd.js:1 | The digit run of digits followed by a non-digit is exactly those digits |
| `JsNumber.ParseIntStopsAtNonDigit` | back-end/public/listen/index2.950c27bd.js:1 | A numeral followed by text not starting with a digit (nor `x` after a lone `0`) reads as the numeral |
| `JsNumber.ParseIntHex` | back-end/public/listen/index2.950c27bd.js:1 | After a `0x` or `0X` prefix the longest run of hexadecimal digits is read in radix 16 |
| `JsNumber.ParseIntHexExamples` | back-end/public/listen/index2.950c27bd.js:1 | `0x1A` reads as 26, and `0x` followed by no hexadecimal digit is `NaN` |
| `Content.Reread` | back-end/public/listen/index2.950c27bd.js:1 | The reread closure always leaves resync on and publishes the reread request (code `-40`, then `live`) to the speaker exactly when no resync was in progress |
| `Content.RereadCoalesces` | back-end/public/listen/index2.950c27bd.js:1 | Any number of reread triggers from one state publish at most one request |
| `Content.DiffClassifier` | back-end/public/listen/index2.950c27bd.js:1 | `k` classes `-1…`, numerals, the empty chunk and any chunk not starting `-` as diffs, and the `-2`, `-3`, `-4` and `-7` chunks and a lone `-` as not |
| `Content.Keep` | back-end/public/listen/index2.950c27bd.js:1 | `substring(0, s)` keeps the first `s` characters, and none when `s` is negative |
| `Content.SuffixOperandsMeaning` | back-end/public/listen/index2.950c27bd.js:1 | With no separator the chunk is parsed whole and the text is `undefined`; otherwise the offset is `parseInt` of the text before the first separator and the text is what follows up to the next separator or the end |
| `Content.OperandsAtSeparator` | back-end/public/listen/index2.950c27bd.js:1 | The same, at the first separator's index |
| `Content.ApplySuffix` | back-end/public/listen/index2.950c27bd.js:1 | An offset that is `NaN`, 0 or past the end keeps the text and calls reread; any other keeps the history and mode and makes the line its first `s` characters plus the payload (just the payload when `s` is negative) |
| `Content.HandleIsParseThenApply` | back-end/public/listen/index2.950c27bd.js:1 | The content handler is the address filter followed by reading the chunk and applying it in the current mode |
| `Content.ParseChunkInverse` | back-end/public/listen/index2.950c27bd.js:1 | Each chunk kind is read only from data with its prefix, and a chunk's text is the data after that prefix; an unrecognized chunk is no diff and has none of the known prefixes |
| `Content.HandleContentShape` | back-end/public/listen/index2.950c27bd.js:1 | The content handler ignores other clients' messages, keeps the history or prepends the line to it, and publishes nothing but one reread request, only from normal mode and keeping the text |
| `Content.ParseFullReplace` | back-end/public/listen/index2.950c27bd.js:1 | Code `0` then text `t` is a full replace by all of `t` |
| `Content.ParseCommit` | back-end/public/listen/index2.950c27bd.js:1 | Code `-1` then anything is a commit |
| `Content.ParseFullLiveText` | back-end/public/listen/index2.950c27bd.js:1 | Code `-3` then text `t` is the full live text `t` |
| `Content.ParseResetAck` | back-end/public/listen/index2.950c27bd.js:1 | Code `-4` then anything is the reset acknowledgement |
| `Content.ParseSoundCue` | back-end/public/listen/index2.950c27bd.js:1 | Code `-7` then text `t` is a sound cue |
| `Content.ParsePastLine` | back-end/public/listen/index2.950c27bd.js:1 | Code `-2` then anything is a past-line chunk |
| `Content.NumeralShape` | back-end/public/listen/index2.950c27bd.js:1 | An offset numeral holds no separator and starts with a digit |
| `Content.ParseSuffix` | back-end/public/listen/index2.950c27bd.js:1 | Numeral `N` then `rest`, with positive `N`, is a suffix replace at `N` by `rest` up to its first separator; numeral `0` then `rest` is a full replace by all of `rest` |
| `Content.ParsePositiveSuffix` | back-end/public/listen/index2.950c27bd.js:1 | A positive numeral prefix is read by the suffix branch |
| `Content.NumeralOperands` | back-end/public/listen/index2.950c27bd.js:1 | `parseInt` of the text before the first separator recovers `N`, and the second `split` field is `rest` up to its first separator |
| `Content.ParseSuffixText` | back-end/public/listen/index2.950c27bd.js:1 | Text after a second separator in a suffix replace is dropped |
| `Content.ParseWithoutSeparator` | back-end/public/listen/index2.950c27bd.js:1 | A diff chunk with no separator is a suffix replace by the text `undefined` |
| `Content.ParseNegativeOffset` | back-end/public/listen/index2.950c27bd.js:1 | Code `-12` then text `t` is classed as a diff and read as a suffix replace at offset −12 |
| `Content.SuffixReplaceNormal` | back-end/public/listen/index2.950c27bd.js:1 | Normal mode: a bad offset keeps the text, sets resync and publishes one reread request; a good one replaces the line's suffix and keeps the history |
| `Content.SuffixKeepsPrefix` | back-end/public/listen/index2.950c27bd.js:1 | A suffix replace at `N` keeps the line's first `N` characters and is followed by exactly the payload |
| `Content.CommitNormal` | back-end/public/listen/index2.950c27bd.js:1 | Normal mode commit: `live' = ""`, `past' = live + "\n" + past` |
| `Content.ResyncMode` | back-end/public/listen/index2.950c27bd.js:1 | Resync mode: replaces, commits and suffix replaces change nothing; the reset acknowledgement clears the line keeping history and resync; the full live text `T` sets the line, keeps history and ends resync |
| `Content.IgnoredChunks` | back-end/public/listen/index2.950c27bd.js:1 | Sound cues, past lines and unknown chunks never change anything; the reset acknowledgement and the full live text change nothing in normal mode |
| `Content.ApplyShape` | back-end/public/listen/index2.950c27bd.js:1 | Every chunk keeps the history or prepends the line to it, and publishes nothing but at most the one reread request, only from normal mode |
| `Content.UnaddressedIgnored` | back-end/public/listen/index2.950c27bd.js:1 | Content messages for another client change nothing |
| `Content.SuffixMessageNormal` | back-end/public/listen/index2.950c27bd.js:1 | Numeral `N` then text `t`: inside the line it replaces the suffix, `0` replaces the line, past the end it requests a reread and keeps the text (an offset equal to the length appends) |
| `Content.SuffixMessageAny` | back-end/public/listen/index2.950c27bd.js:1 | Any message taken by the suffix branch behaves as `parseInt` of its first field and its second field dictate |
| `Content.CommitMessage` | back-end/public/listen/index2.950c27bd.js:1 | Code `-1` then anything commits the line in normal mode |
| `Content.ResyncMessages` | back-end/public/listen/index2.950c27bd.js:1 | In resync, the reset acknowledgement clears the line and the full live text `T` sets it to `T` and ends resync, both keeping history |
| `Content.ResyncIgnoresDiffs` | back-end/public/listen/index2.950c27bd.js:1 | In resync every diff-class message leaves the replica alone |
| `ContentRuns.RunIsRunChunks` | back-end/public/listen/index2.950c27bd.js:1 | Handling messages in order is applying the chunks they read as |
| `ContentRuns.RunChunksAppend` | back-end/public/listen/index2.950c27bd.js:1 | Running two stretches of chunks is running one after the other |
| `ContentRuns.HistoryOnlyGrows` | back-end/public/listen/index2.950c27bd.js:1 | Over any run of chunks the old history stays the tail of the new |
| `ContentRuns.HistoryOnlyGrowsOnChannel` | back-end/public/listen/index2.950c27bd.js:1 | The same over any run of messages |
| `ContentRuns.TwoCommits` | back-end/public/listen/index2.950c27bd.js:1 | Typing `L1`, committing, typing `L2`, committing gives history `L2\nL1\npast` and an empty line |
| `ContentRuns.ResyncHolds` | back-end/public/listen/index2.950c27bd.js:1 | In resync, until a full live text, the flag stays, history is kept, nothing is published and the line is unchanged or cleared |
| `ContentRuns.ResyncConverges` | back-end/public/listen/index2.950c27bd.js:1 | In resync, after any chunks other than a full live text, the full live text `T` leaves the line equal to `T` whatever came before, with history kept and resync over |
| `ContentRuns.DivergenceRecovers` | back-end/public/listen/index2.950c27bd.js:1 | An offset past the end, a reset acknowledgement, any chunks other than a full live text, and then the full live text `T` leave line `T`, the old history, normal mode, and exactly one published reread request |
| `ContentRuns.ResyncPublishesNothing` | back-end/public/listen/index2.950c27bd.js:1 | A second reread trigger while resyncing publishes nothing |
| `ContentRuns.ResyncConvergesOnChannel` | back-end/public/listen/index2.950c27bd.js:1 | On the channel, in resync, the first addressed full live text `T` sets the line to `T` with history kept, having published nothing |
| `ContentRuns.ReadFinal` | back-end/public/listen/index2.950c27bd.js:1 | A full-live-text message (code `-3`) addressed to this client reads as that text |
| `ContentRuns.ReadAllAppend` | back-end/public/listen/index2.950c27bd.js:1 | Reading a run extended by one message extends its chunks by one |
| `OneShot.Fire` | back-end/public/listen/index2.950c27bd.js:1 | `y` runs `fn` iff the key's counter (absent = 0) is below `n`, then bumps only that counter |
| `OneShot.FireTimesCount` | back-end/public/listen/index2.950c27bd.js:1 | `k` calls of `y` run `fn` exactly min(`k`, budget left) times, never past `n` in the key's life, and leave other keys alone |
| `OneShot.FireOnce` | back-end/public/listen/index2.950c27bd.js:1 | From a fresh counter, `y(fn, key, 1)` runs `fn` once however often it is called |
| `OneShot.SpentStaysSpent` | back-end/public/listen/index2.950c27bd.js:1 | Once the key's budget is spent, `y` never runs `fn` again |
| `Listener.Render` | back-end/public/listen/index2.950c27bd.js:1 | A render keeps status, text and teardown; it publishes the listen offer iff the page is live and the offer's one-shot is unspent, and otherwise only the reread request; it publishes the reread request iff the page is live, shows the content view, has `initialRead` unspent and has no resync pending; only a render of a live page showing the content view spends `initialRead`, and such a render always leaves it spent; afterwards resync holds iff it held before or the reread request went out |
| `Listener.Step` | back-end/public/listen/index2.950c27bd.js:1 | A torn-down page ignores every event; the teardown event ends the page quietly; content messages are ignored until the content view shows; once it shows and both one-shots are spent, a content message does exactly what the content handler does |
| `Listener.ControlStep` | back-end/public/listen/index2.950c27bd.js:1 | A control message on a live page: the handler's status is the page's status; its effects come first, whole; the page ends iff the handler asks for an immediate teardown; the render adds only the listen offer or the reread request; resync survives a remount and is entered only by publishing the reread request while none is pending; the text is emptied only when the content view mounts |
| `Listener.DropEndsPage` | back-end/public/listen/index2.950c27bd.js:1 | An addressed `dropping` packet ends a live page, with the teardown as the step's first effect |
| `Listener.MalformedGrantEndsPage` | back-end/public/listen/index2.950c27bd.js:1 | An addressed `listenAuthYes` with a malformed id alerts and then ends the page, keeping the status |
| `Listener.WhisperOfferPublished` | back-end/public/listen/index2.950c27bd.js:1 | An addressed whisper offer moves a live page to `requesting` and publishes the listen request to the offering client as the step's first effect |
| `Listener.ContentEvents` | back-end/public/listen/index2.950c27bd.js:1 | Content messages become page events one for one, in order |
| `Listener.ShownPageFollowsContent` | back-end/public/listen/index2.950c27bd.js:1 | On a shown page with both one-shots spent, any run of content messages moves the replica and publishes exactly as the content handler's run does |
| `Listener.ShownPageResyncConverges` | back-end/public/listen/index2.950c27bd.js:1 | On a shown page in resync, the first addressed full live text `T` after other content messages sets the line to `T` with history kept and nothing published |
| `Listener.ShownPageHistoryOnlyGrows` | back-end/public/listen/index2.950c27bd.js:1 | On a shown page the old history stays the tail of the new over any run of content messages |
| `Listener.RenderIdempotent` | back-end/public/listen/index2.950c27bd.js:1 | A second render (strict mode or any re-render) changes nothing and publishes nothing |
| `Listener.FirstRender` | back-end/public/listen/index2.950c27bd.js:1 | The first render of a fresh page publishes the listen offer and nothing else |
| `Listener.ContentIgnoredUntilShown` | back-end/public/listen/index2.950c27bd.js:1 | Content messages have no effect until the content view is mounted |
| `Listener.MountResetsText` | back-end/public/listen/index2.950c27bd.js:1 | Mounting the content view starts from an empty text; a grant while shown keeps the text |
| `Listener.FirstShowRequestsRead` | back-end/public/listen/index2.950c27bd.js:1 | A grant that mounts the content view on a page with `initialRead` unspent and no resync pending publishes exactly the handler's effects and one reread request, and enters resync with an empty text |
| `Listener.StepKeepsReadInvariant` | back-end/public/listen/index2.950c27bd.js:1 | Every step keeps the read invariant: while `initialRead` is unspent no resync is pending, and a live page showing the content view has spent `initialRead` |
| `Listener.ReadSpentOnlyWithRequest` | back-end/public/listen/index2.950c27bd.js:1 | From a page with `initialRead` unspent, a step that spends it publishes the reread request |
| `Listener.RunKeepsReadInvariant` | back-end/public/listen/index2.950c27bd.js:1 | The read invariant holds over any run of events |
| `Listener.RunSpendsReadWithRequest` | back-end/public/listen/index2.950c27bd.js:1 | Over any run from a page with `initialRead` unspent, the one-shot is spent only if the run published the reread request |
| `Listener.FreshRunRequestsRead` | back-end/public/listen/index2.950c27bd.js:1 | On any run from a freshly loaded page, a live page that shows the content view has published the reread request, so the first mount always asks for the live text |
| `Listener.FirstGrantRequestsRead` | back-end/public/listen/index2.950c27bd.js:1 | A fresh page's first render followed by a grant publishes exactly the listen offer and then the reread request |
| `Listener.StatusShownOnlyAfterGrant` | back-end/public/listen/index2.950c27bd.js:1 | A control message that first shows the content view has no other effect |
| `Listener.RunKeepsInvariant` | back-end/public/listen/index2.950c27bd.js:1 | Over any run of events a granted status carries a well-shaped id |
| `Listener.EndedIsFinal` | back-end/public/listen/index2.950c27bd.js:1 | A torn-down page stays torn down and quiet |
| `Listener.StepKeepsShots` | back-end/public/listen/index2.950c27bd.js:1 | One-shot counters never decrease |
| `Listener.OfferNotRepeated` | back-end/public/listen/index2.950c27bd.js:1 | After the first render, no run of events publishes the listen offer again |
| `Listener.OfferNotRepeatedStep` | back-end/public/listen/index2.950c27bd.js:1 | No single step after the first render publishes the offer |
| `Listener.OfferIsNoHandlerEffect` | back-end/public/listen/index2.950c27bd.js:1 | The control handler never publishes a listen offer |
| `Listener.OfferIsNoContentEffect` | back-end/public/listen/index2.950c27bd.js:1 | The content handler never publishes a listen offer |
| `Listener.OfferIsNotReread` | back-end/public/listen/index2.950c27bd.js:1 | The listen offer and the reread request are different publishes |
| `Listener.RereadIsNoHandlerEffect` | back-end/public/listen/index2.950c27bd.js:1 | The control handler never publishes the reread request |
| `Routes.PubSubTokenRequest` | back-end/src/routes.ts:62-74 | A missing client id, activity or publisher id gives 400 `Invalid post data` and writes nothing; the user name is written iff the body passes that check and carries one, whatever the later checks decide |
| `Routes.Authorize` | back-end/src/routes.ts:75-80 | A missing header, or one that does not begin `bearer ` in any case, gives 403 `Invalid authorization header` |
| `Routes.TokenIssuedIff` | back-end/src/routes.ts:62-110 | A token is issued iff the body is complete, the JWT is valid for `cli:<clientId>`, and the request is to publish as oneself or to subscribe to someone else; it names the request's ids |
| `Routes.RefusalOrder` | back-end/src/routes.ts:64-100 | Each refusal names the first rule broken, in the order body, header, JWT, activity, self-subscription, impersonation, each as an iff |
| `Routes.BearerIff` | back-end/src/routes.ts:76 | The header passes the scheme test exactly when it is present and its first seven characters, lower-cased, are `bearer ` |
| `Routes.BearerCases` | back-end/src/routes.ts:76 | The scheme test ignores case and needs the trailing space |
| `Routes.SubscribeToPublisher` | back-end/src/routes.ts:112-127 | The session is replaced iff the publisher id is present and matches `^[-0-9a-zA-Z]{36}$`; otherwise the redirect is to `/subscribe404.html` |
| `Routes.SubscribeAccepted` | back-end/src/routes.ts:119-126 | An accepted link keeps the session's client id or else draws a fresh one, records the pair in the session and redirects to the listen page naming both |
| `Routes.ListenLocationReadsBack` | back-end/src/routes.ts:124 | The redirect query splits on `&` back into the client id and the publisher parameter |
| `Routes.ClientChanged` | back-end/src/routes.ts:33-34 | With no stored record the client counts as changed; a stored record equal to what was received counts as unchanged |
| `Routes.UnchangedIff` | back-end/src/routes.ts:12-43 | The handler accepts a post and writes nothing exactly when the body is complete and storage holds a record with the same hex secret, hex token and device id; the rest of the record is not looked at |
| `Routes.ApnsToken` | back-end/src/routes.ts:12-44 | A missing token, device id, client id or secret gives 400; otherwise the changed flag holds iff there is no stored record or its secret, token or device id differs from the received one, and then the received record is written under `cli:<clientId>`; nothing is written otherwise |
| `Routes.RepeatPostUnchanged` | back-end/src/routes.ts:31-43 | A first post is written; posting it again once stored writes nothing and reports no change |
| `Routes.ChangedPostWritten` | back-end/src/routes.ts:33-38 | A post whose secret, token or device id differs from the stored one is written as received |

## Left out

- Rendering of the name form, the ended page and the status and content text areas is not modelled. Only the one-shot calls made during rendering, and which view is mounted, are kept.
- The cookie that remembers the listener's name is not modelled. Nor is the gate that shows the name form until a name is set. The name is the `clientName` of `Identity`.
- The redirect to `/subscribe404.html` when the page's URL parameters are missing is not modelled. It is browser navigation.
- The transport is not modelled: its connection, authentication URL and echo setting are out. Inbound messages are `Message` values, and a publish is a `Publish` effect. The promise a publish returns is ignored.
- `setTimeout` is not modelled as a timer. It becomes the `TerminateAfter` effect, and its later firing is the `Teardown` event. `alert` is the `Alert` effect. Console logging is dropped.
- Listener.Step: the model renders after every event. React renders only after a state change, which `Listener.RenderIdempotent` covers: extra renders of the same state change nothing. React 18 also batches the state updates of several control messages delivered in one task into one render, and that is not modelled. For example, with the status `requesting`, a `listenAuthYes` with a well-shaped id and a `dropping` packet delivered together make the page render once, already ended. So the content view never mounts and no reread request goes out. The model renders after the grant, mounts the content view, publishes the reread request and spends the `initialRead` one-shot before the drop ends the page. Runs where each control message is rendered before the next arrives are modelled exactly.
- The page is mounted inside React's `StrictMode`. Development builds of React call render functions and state updaters twice under it; production builds call them once, and the model calls them once. A second render would change nothing (`Listener.RenderIdempotent`), and a second reread trigger would publish nothing (`Content.RereadCoalesces`).
- Content.HandleContent: the model runs each state updater as its message is handled. React runs an updater at once only when the component has no update pending; otherwise it queues the updater until the next render. The suffix-replace updater is what calls the reread closure, so messages that arrive before that render are classified while `R` is still false. For `0|abc`, `9|x`, `-1|` arriving together on an empty line, the page commits `abc` and ends in resync; the model enters resync at `9|x` and drops the commit. Runs where each message is rendered before the next arrives are modelled exactly.
- Content messages are assumed to arrive on the channel of the current content id. A change of subscription when the id changes is not modelled.
- Characters are Dafny `char`s, not UTF-16 code units. String lengths and `substring` offsets agree with JavaScript only for text in the Basic Multilingual Plane.
- `parseInt` returns an unbounded integer instead of an IEEE double. Rounding is monotonic, and line lengths are exact in a double, so the listener's comparisons come out the same either way.
- Channel.Addressed: case mapping covers only ASCII letters. JavaScript's `toUpperCase` also maps other letters.
- Routes.HasBearer: `toLowerCase` covers only ASCII letters.
- Body fields are modelled as optional strings. A JSON body field that is a number, boolean or object is not modelled.
- The JWT check is the `validate` parameter. Minting a token request is the `IssuePublish` or `IssueSubscribe` reply. The base64-to-hex conversion is the `hex` parameter. `Date.now()` is `now`. `randomUUID` is `freshId`.
- Storage is not modelled. Writes are returned, and the stored record is an input. `db.ts` is not part of this model, so `Routes.RepeatPostUnchanged` takes what storage returns after a write to be the written record.
- `sendSecretToClient` is not modelled: only the changed flag passed to it is kept.
- The received-notification handler and the session token handler in `routes.ts` are not modelled. They perform no decision beyond field presence.
- The profile handlers (`back-end/src/v2/profiles.ts`) and the integration test script (`back-end/src/test.ts`) are not modelled: they are storage I/O and a test rig.
- The speaker side is not modelled. It mints tokens, fans out diffs and answers reread requests, and its code is not part of this model.
