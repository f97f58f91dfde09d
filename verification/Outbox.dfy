/**
 The feedback outbox (src/feedback/outbox.ts) and its submission to a provider (src/feedback/submit.ts).

 The submission lock is exclusive, so one flush of a packet runs at a time; it may be lost between any
 two steps. The provider lists every open issue that carries a marker or fails; issues it has are never
 closed; a create lands before its process is lost or not at all.
 */
module Outbox {
  import opened Wrappers
  import opened Text

  const OUTBOX_MAX_PACKETS := 100
  const OUTBOX_MAX_BYTES := 5 * 1024 * 1024

  datatype Packet = Packet(fingerprint: Text, marker: Text, body: Text)

  datatype Issue = Issue(number: nat, body: Text)

  datatype Status = Pending | SubmitIntent | Submitted | Quarantined

  datatype Envelope = Envelope(status: Status, packet: Packet, errorCode: Option<Text>, issue: Option<nat>, nonce: Option<Text>)

  /** body.includes(marker) */
  predicate Contains(body: Text, marker: Text) {
    exists i :: 0 <= i <= |body| && ContainsAt(body, marker, i)
  }

  predicate ContainsAt(body: Text, marker: Text, i: int) {
    0 <= i <= |body| - |marker| && body[i..i + |marker|] == marker
  }

  /** Containing is being somewhere between two other texts. */
  lemma ContainsIsBetween(body: Text, marker: Text)
    ensures Contains(body, marker) <==> exists before: Text, behind: Text :: body == before + marker + behind
  {
    if Contains(body, marker) {
      var i :| 0 <= i <= |body| && ContainsAt(body, marker, i);
      assert body == body[..i] + marker + body[i + |marker|..];
    }
    if exists before: Text, behind: Text :: body == before + marker + behind {
      var before: Text, behind: Text :| body == before + marker + behind;
      assert body[|before|..|before| + |marker|] == marker;
      assert ContainsAt(body, marker, |before|);
    }
  }

  /** What validateFeedbackPacket guarantees of a packet: its body carries its marker. */
  predicate PacketOk(p: Packet) {
    Contains(p.body, p.marker)
  }

  // ---------------------------------------------------------------- discovery

  /** The open issues whose body carries the marker. */
  function Matches(issues: seq<Issue>, marker: Text): (out: seq<Issue>)
    ensures forall i :: i in out <==> i in issues && Contains(i.body, marker)
  {
    if issues == [] then []
    else
      assert issues == [issues[0]] + issues[1..];
      var rest := Matches(issues[1..], marker);
      if Contains(issues[0].body, marker) then [issues[0]] + rest else rest
  }

  /** discoveredMarkerMatches(...)[0]: the matching issue with the smallest number. */
  function First(issues: seq<Issue>): (least: Option<Issue>)
    ensures least.None? <==> issues == []
    ensures least.Some? ==> least.value in issues && forall i :: i in issues ==> least.value.number <= i.number
  {
    if issues == [] then None
    else
      assert issues == [issues[0]] + issues[1..];
      var rest := First(issues[1..]);
      if rest.None? || issues[0].number <= rest.value.number then Some(issues[0]) else rest
  }

  datatype Discovery = Existing(issue: Issue) | Absent | Invalid | Unavailable

  datatype Outcome =
    | Done(issue: nat)
    | AlreadyThere(issue: nat)
    | NotCreated
    | Unauthorized
    | Ambiguous
    | Refused(why: Refusal)
    | Lost

  datatype Refusal = Busy | NotFound | InvalidState | Quota | NoStorage

  datatype Authority = Authority(nonce: Text, grant: Text)

  // ---------------------------------------------------------------- capacity

  /** A directory entry as the counting loop sees it. */
  datatype Entry = Entry(isPacket: bool, size: nat)

  function PacketCount(entries: seq<Entry>): nat {
    if entries == [] then 0
    else PacketCount(entries[..|entries| - 1]) + if entries[|entries| - 1].isPacket then 1 else 0
  }

  function TotalSize(entries: seq<Entry>): nat {
    if entries == [] then 0 else TotalSize(entries[..|entries| - 1]) + entries[|entries| - 1].size
  }

  predicate Fits(entries: seq<Entry>, incoming: nat) {
    PacketCount(entries) < OUTBOX_MAX_PACKETS && TotalSize(entries) + incoming <= OUTBOX_MAX_BYTES
  }

  /** hasCapacity */
  method HasCapacity(entries: seq<Entry>, incoming: nat) returns (ok: bool)
    ensures ok <==> Fits(entries, incoming)
  {
    var packets, bytes := 0, 0;
    for i := 0 to |entries|
      invariant packets == PacketCount(entries[..i]) && bytes == TotalSize(entries[..i])
    {
      assert entries[..i + 1][..i] == entries[..i];
      bytes := bytes + entries[i].size;
      if entries[i].isPacket { packets := packets + 1; }
    }
    assert entries[..|entries|] == entries;
    ok := !(packets >= OUTBOX_MAX_PACKETS || bytes + incoming > OUTBOX_MAX_BYTES);
  }

  /** The directory: a packet file for each fingerprint, and what lost writes left. */
  function DirectoryEntries(sizes: seq<nat>, strays: seq<nat>): (out: seq<Entry>)
    ensures |out| == |sizes| + |strays|
  {
    seq(|sizes| + |strays|, i requires 0 <= i < |sizes| + |strays| =>
      if i < |sizes| then Entry(true, sizes[i]) else Entry(false, strays[i - |sizes|]))
  }

  function Sum(sizes: seq<nat>): nat {
    if sizes == [] then 0 else Sum(sizes[..|sizes| - 1]) + sizes[|sizes| - 1]
  }

  lemma {:induction false} DirectoryTotals(sizes: seq<nat>, strays: seq<nat>)
    ensures PacketCount(DirectoryEntries(sizes, strays)) == |sizes|
    ensures TotalSize(DirectoryEntries(sizes, strays)) == Sum(sizes) + Sum(strays)
    decreases |sizes| + |strays|
  {
    var all := DirectoryEntries(sizes, strays);
    if strays != [] {
      var fewer := strays[..|strays| - 1];
      DirectoryTotals(sizes, fewer);
      assert all[..|all| - 1] == DirectoryEntries(sizes, fewer);
    } else if sizes != [] {
      var fewer := sizes[..|sizes| - 1];
      DirectoryTotals(fewer, strays);
      assert all[..|all| - 1] == DirectoryEntries(fewer, strays);
    }
  }

  function SizesOf(files: map<Text, Envelope>, sizeOf: Envelope -> nat): (out: seq<nat>)
    ensures |out| == |files.Keys|
  {
    var names := Listing(files.Keys);
    assert forall i :: 0 <= i < |names| ==> names[i] in names;
    seq(|names|, i requires 0 <= i < |names| => sizeOf(files[names[i]]))
  }

  // ---------------------------------------------------------------- the outbox and its provider

  /** Successive values differ. */
  predicate Alternating(nonces: seq<Text>) {
    forall i :: 0 < i < |nonces| ==> nonces[i - 1] != nonces[i]
  }

  function Last(nonces: seq<Text>): Option<Text> {
    if nonces == [] then None else Some(nonces[|nonces| - 1])
  }

  predicate FileOk(fingerprint: Text, e: Envelope, nonces: seq<Text>) {
    && e.packet.fingerprint == fingerprint && PacketOk(e.packet)
    && (e.status == SubmitIntent ==> e.nonce.Some?)
    && (e.status == Pending ==> e.nonce.None?)
    && e.nonce == Last(nonces)
  }

  ghost predicate AllAlternate(intents: map<Text, seq<Text>>) {
    forall f :: f in intents ==> Alternating(intents[f])
  }

  lemma DifferentNonceAlternates(intents: map<Text, seq<Text>>, fingerprint: Text, nonce: Text)
    requires AllAlternate(intents) && Last(NoncesOf(intents, fingerprint)) != Some(nonce)
    ensures AllAlternate(intents[fingerprint := NoncesOf(intents, fingerprint) + [nonce]])
  {
  }

  predicate Unsubmitted(files: map<Text, Envelope>, fingerprint: Text) {
    fingerprint in files && files[fingerprint].status in {Pending, SubmitIntent}
  }

  function WithIntent(e: Envelope, nonce: Text): Envelope {
    e.(status := SubmitIntent, nonce := Some(nonce))
  }

  function WithIssue(e: Envelope, issue: Issue): Envelope {
    e.(status := Submitted, issue := Some(issue.number))
  }

  /** The same files, but for an intent with this nonce in one that was pending or had an intent. */
  ghost predicate IntentRecorded(was: map<Text, Envelope>, wasIntents: map<Text, seq<Text>>, now: map<Text, Envelope>, intents: map<Text, seq<Text>>,
                                 fingerprint: Text, nonce: Text) {
    && fingerprint in was && was[fingerprint].status in {Pending, SubmitIntent}
    && now == was[fingerprint := WithIntent(was[fingerprint], nonce)]
    && intents == wasIntents[fingerprint := NoncesOf(wasIntents, fingerprint) + [nonce]]
  }

  lemma RecordingKeepsPackets(was: map<Text, Envelope>, wasIntents: map<Text, seq<Text>>, now: map<Text, Envelope>, intents: map<Text, seq<Text>>,
                              fingerprint: Text, nonce: Text)
    requires IntentRecorded(was, wasIntents, now, intents, fingerprint, nonce)
    ensures KeepsPackets(was, now) && now.Keys == was.Keys
    ensures fingerprint in now && now[fingerprint].status == SubmitIntent
  {
  }

  /** No intent has been recorded in between. */
  ghost predicate SameNonces(was: map<Text, seq<Text>>, now: map<Text, seq<Text>>) {
    forall f :: NoncesOf(now, f) == NoncesOf(was, f)
  }

  lemma SameNoncesAlternate(was: map<Text, seq<Text>>, now: map<Text, seq<Text>>)
    requires SameNonces(was, now) && AllAlternate(was)
    ensures AllAlternate(now)
  {
    forall f | f in now
      ensures Alternating(now[f])
    {
      assert now[f] == NoncesOf(now, f) == NoncesOf(was, f);
    }
  }

  /** Packet files stay, with the packets they hold. */
  ghost predicate KeepsPackets(was: map<Text, Envelope>, now: map<Text, Envelope>) {
    forall f :: f in was ==> f in now && now[f].packet == was[f].packet
  }

  ghost function NoncesOf(intents: map<Text, seq<Text>>, fingerprint: Text): seq<Text> {
    if fingerprint in intents then intents[fingerprint] else []
  }

  predicate Discoverable(issues: seq<Issue>, marker: Text) {
    exists i :: i in issues && Contains(i.body, marker)
  }

  /** The packet files, and the intents recorded in them. */
  ghost predicate FilesOk(files: map<Text, Envelope>, intents: map<Text, seq<Text>>) {
    && |files| <= OUTBOX_MAX_PACKETS
    && (forall f :: f in files ==> FileOk(f, files[f], NoncesOf(intents, f)))
    && (forall f :: f in intents && intents[f] != [] ==> f in files)
  }

  /** At most one issue has ever been created for a packet, and if one has, discovery finds it. */
  ghost predicate CreatesOk(files: map<Text, Envelope>, issues: seq<Issue>, created: map<Text, nat>) {
    forall f :: f in created ==> created[f] <= 1 && (created[f] == 1 ==> f in files && Discoverable(issues, files[f].packet.marker))
  }

  lemma MoreIssuesKeepCreates(files: map<Text, Envelope>, issues: seq<Issue>, more: seq<Issue>, created: map<Text, nat>)
    requires CreatesOk(files, issues, created)
    ensures CreatesOk(files, issues + more, created)
  {
    forall f | f in created && created[f] == 1
      ensures Discoverable(issues + more, files[f].packet.marker)
    {
      var i :| i in issues && Contains(i.body, files[f].packet.marker);
      assert i in issues + more;
    }
  }

  lemma UpdateKeepsCreates(files: map<Text, Envelope>, fingerprint: Text, next: Envelope, issues: seq<Issue>, created: map<Text, nat>)
    requires CreatesOk(files, issues, created)
    requires fingerprint in files ==> files[fingerprint].packet == next.packet
    ensures CreatesOk(files[fingerprint := next], issues, created)
  {
  }

  lemma UpdateSize(files: map<Text, Envelope>, fingerprint: Text, next: Envelope)
    ensures |files[fingerprint := next]| == if fingerprint in files then |files| else |files| + 1
  {
    var now := files[fingerprint := next];
    assert now.Keys == files.Keys + {fingerprint};
    assert |now| == |now.Keys| && |files| == |files.Keys|;
  }

  lemma UpdateKeepsFiles(files: map<Text, Envelope>, fingerprint: Text, next: Envelope, intents: map<Text, seq<Text>>, nonces: seq<Text>)
    requires FilesOk(files, intents) && FileOk(fingerprint, next, nonces)
    requires fingerprint in files || |files| < OUTBOX_MAX_PACKETS
    ensures FilesOk(files[fingerprint := next], intents[fingerprint := nonces])
  {
    UpdateSize(files, fingerprint, next);
    var now, recorded := files[fingerprint := next], intents[fingerprint := nonces];
    forall f | f in now
      ensures FileOk(f, now[f], NoncesOf(recorded, f))
    {
      if f != fingerprint { assert NoncesOf(recorded, f) == NoncesOf(intents, f); }
    }
  }

  /** What a write meets: the outbox lock, the temporary file, the rename, the sync, and whether the process is lost. */
  datatype Storage = Storage(busy: bool, temporary: bool, renamed: bool, synced: bool, lost: bool)

  /** What a discovery meets. */
  datatype Provider = Provider(served: bool, valid: bool)

  /** What a create meets. */
  datatype Creation = Creation(lostBefore: bool, lands: bool, answered: bool, lostAfter: bool)

  /** What one flush meets, in order. */
  datatype World = World(busy: bool, first: Provider, recovered: Storage, intent: Storage, second: Provider, creation: Creation, lost: bool, mark: Storage)

  predicate Smooth(s: Storage) {
    !s.busy && s.temporary && s.renamed && s.synced && !s.lost
  }

  predicate Answers(p: Provider) {
    p.served && p.valid
  }

  /** Nothing is in the way of a flush. */
  predicate Calm(w: World) {
    && !w.busy && Answers(w.first) && Smooth(w.intent) && Answers(w.second)
    && !w.creation.lostBefore && w.creation.lands && w.creation.answered && !w.creation.lostAfter
    && !w.lost && Smooth(w.mark)
  }

  /** At most one issue has been opened, for this packet, and it is counted. */
  ghost predicate OpenedFor(was: seq<Issue>, wasCreated: map<Text, nat>, now: seq<Issue>, created: map<Text, nat>, packet: Packet, number: nat) {
    || (now == was && created == wasCreated)
    || (now == was + [Issue(number, packet.body)] && created == wasCreated[packet.fingerprint := CountOf(wasCreated, packet.fingerprint) + 1])
  }

  function CountOf(created: map<Text, nat>, fingerprint: Text): nat {
    if fingerprint in created then created[fingerprint] else 0
  }

  datatype Call =
    | Enqueues(packet: Packet, s: Storage)
    | Flushes(fingerprint: Text, authority: Option<Authority>, number: nat, w: World)
    | Recovers(fingerprint: Text, provider: Provider, s: Storage)
    | Quarantines(fingerprint: Text, code: Text, s: Storage)
    | OthersOpen(more: seq<Issue>)

  class FeedbackOutbox {
    const sizeOf: Envelope -> nat
    const authorizes: (Packet, Authority) -> bool
    /** Packet files, by fingerprint. */
    var files: map<Text, Envelope>
    /** Sizes of temporary files a lost write left behind. */
    var strays: seq<nat>
    /** The provider's open issues. */
    var issues: seq<Issue>
    /** How many issues have been created for each packet. */
    ghost var created: map<Text, nat>
    /** The nonces of the intents recorded for each packet, oldest first. */
    ghost var intents: map<Text, seq<Text>>

    constructor (sizeOf: Envelope -> nat, authorizes: (Packet, Authority) -> bool, issues: seq<Issue>)
      ensures Inv() && NoncesAlternate() && files == map[] && this.issues == issues && this.sizeOf == sizeOf && this.authorizes == authorizes
    {
      this.sizeOf, this.authorizes := sizeOf, authorizes;
      files, strays, this.issues, created, intents := map[], [], issues, map[], map[];
    }

    ghost function Created(fingerprint: Text): nat
      reads this`created
    {
      CountOf(created, fingerprint)
    }

    ghost function Nonces(fingerprint: Text): seq<Text>
      reads this`intents
    {
      NoncesOf(intents, fingerprint)
    }

    /**
     At most one issue has ever been created for a packet, and if one has, discovery finds it; a file holds
     the nonce of its last intent; the outbox holds at most 100 packets.
     */
    ghost predicate Inv()
      reads this
    {
      FilesOk(files, intents) && CreatesOk(files, issues, created)
    }

    /** Successive intents of a packet carry different nonces. */
    ghost predicate NoncesAlternate()
      reads this`intents
    {
      AllAlternate(intents)
    }

    /** Anyone may open issues. */
    method Others(more: seq<Issue>)
      requires Inv()
      modifies this`issues
      ensures Inv() && issues == old(issues) + more
    {
      MoreIssuesKeepCreates(files, issues, more, created);
      issues := issues + more;
    }

    /** discoverExisting: complete or refused, never partial. */
    method DiscoverExisting(packet: Packet, w: Provider) returns (d: Discovery)
      ensures d.Absent? <==> Answers(w) && !Discoverable(issues, packet.marker)
      ensures d.Existing? <==> Answers(w) && Discoverable(issues, packet.marker)
      ensures d.Existing? ==> d.issue in issues && Contains(d.issue.body, packet.marker)
      ensures d.Existing? ==> forall i :: i in issues && Contains(i.body, packet.marker) ==> d.issue.number <= i.number
    {
      if !w.served { return Unavailable; }
      if !w.valid { return Invalid; }
      var first := First(Matches(issues, packet.marker));
      d := if first.None? then Absent else Existing(first.value);
    }

    /**
     createIssue. It may be called only after a durable submit_intent and a complete, empty discovery; it
     may land and lose its answer.
     */
    method CreateIssue(packet: Packet, number: nat, c: Creation) returns (answer: Option<Issue>, lost: bool)
      requires Inv()
      requires packet.fingerprint in files && files[packet.fingerprint].packet == packet
      requires files[packet.fingerprint].status == SubmitIntent
      requires !Discoverable(issues, packet.marker)
      modifies this`issues, this`created
      ensures Inv()
      ensures OpenedFor(old(issues), old(created), issues, created, packet, number)
      ensures issues != old(issues) <==> c.lands && !c.lostBefore
      ensures lost <==> c.lostBefore || (c.lands && c.lostAfter)
      ensures answer == if c.lands && c.answered && !lost then Some(Issue(number, packet.body)) else None
    {
      answer, lost := None, c.lostBefore;
      if lost || !c.lands { return; }
      var issue := Issue(number, packet.body);
      MoreIssuesKeepCreates(files, issues, [issue], created);
      issues := issues + [issue];
      assert issue in issues && Contains(issue.body, packet.marker);
      created := created[packet.fingerprint := Created(packet.fingerprint) + 1];
      lost := c.lostAfter;
      if c.answered && !lost { answer := Some(issue); }
    }

    /** write: a temporary file, then an atomic rename; any step may fail or be the last. */
    method Write(fingerprint: Text, next: Envelope, ghost nonces: seq<Text>, s: Storage) returns (r: Outcome)
      requires Inv()
      requires fingerprint in files && next.packet == files[fingerprint].packet && FileOk(fingerprint, next, nonces)
      modifies this`files, this`strays, this`intents
      ensures Inv()
      ensures r == if sizeOf(next) > OUTBOX_MAX_BYTES then Refused(Quota)
                   else if s.temporary && s.lost then Lost
                   else if s.temporary && s.renamed && s.synced then Done(0) else Refused(NoStorage)
      ensures if sizeOf(next) <= OUTBOX_MAX_BYTES && s.temporary && s.renamed
              then files == old(files)[fingerprint := next] && intents == old(intents)[fingerprint := nonces]
              else files == old(files) && intents == old(intents)
      ensures strays == old(strays) + if sizeOf(next) <= OUTBOX_MAX_BYTES && s.temporary && !s.renamed then [sizeOf(next)] else []
    {
      if sizeOf(next) > OUTBOX_MAX_BYTES { return Refused(Quota); }
      if !s.temporary { return Refused(NoStorage); }
      strays := strays + [sizeOf(next)];
      if !s.renamed { return if s.lost then Lost else Refused(NoStorage); }
      strays := strays[..|strays| - 1];
      UpdateKeepsFiles(files, fingerprint, next, intents, nonces);
      UpdateKeepsCreates(files, fingerprint, next, issues, created);
      files, intents := files[fingerprint := next], intents[fingerprint := nonces];
      r := if s.lost then Lost else if s.synced then Done(0) else Refused(NoStorage);
    }

    /** transition, from an allowed status. */
    method Transition(fingerprint: Text, allowed: set<Status>, next: Envelope -> Envelope, ghost nonces: seq<Text>, s: Storage) returns (r: Outcome)
      requires Inv()
      requires fingerprint in files ==>
                 var n := next(files[fingerprint]);
                 n.packet == files[fingerprint].packet && FileOk(fingerprint, n, nonces)
      modifies this`files, this`strays, this`intents
      ensures Inv()
      ensures r.Done? || r.Lost? || r.Refused?
      ensures (files == old(files) && intents == old(intents)) ||
              (fingerprint in old(files) && old(files)[fingerprint].status in allowed
               && files == old(files)[fingerprint := next(old(files)[fingerprint])] && intents == old(intents)[fingerprint := nonces])
      ensures r.Done? ==> fingerprint in old(files) && old(files)[fingerprint].status in allowed
                          && files == old(files)[fingerprint := next(old(files)[fingerprint])] && intents == old(intents)[fingerprint := nonces]
      ensures s.busy ==> r == Refused(Busy)
      ensures !s.busy && fingerprint !in old(files) ==> r == Refused(NotFound)
      ensures !s.busy && fingerprint in old(files) && old(files)[fingerprint].status !in allowed ==> r == Refused(InvalidState)
      ensures Smooth(s) && fingerprint in old(files) && old(files)[fingerprint].status in allowed ==>
                r == if sizeOf(next(old(files)[fingerprint])) > OUTBOX_MAX_BYTES then Refused(Quota) else Done(0)
    {
      if s.busy { return Refused(Busy); }
      if fingerprint !in files { return Refused(NotFound); }
      if files[fingerprint].status !in allowed { return Refused(InvalidState); }
      r := Write(fingerprint, next(files[fingerprint]), nonces, s);
    }

    /** markSubmitIntent: whatever the nonce, it is recorded with the intent. */
    method MarkSubmitIntent(fingerprint: Text, nonce: Text, s: Storage) returns (r: Outcome)
      requires Inv()
      modifies this`files, this`strays, this`intents
      ensures Inv()
      ensures r.Done? || r.Lost? || r.Refused?
      ensures (files == old(files) && intents == old(intents)) || IntentRecorded(old(files), old(intents), files, intents, fingerprint, nonce)
      ensures r.Done? ==> IntentRecorded(old(files), old(intents), files, intents, fingerprint, nonce)
      ensures Smooth(s) && Unsubmitted(old(files), fingerprint) ==>
                (r.Done? <==> sizeOf(WithIntent(old(files)[fingerprint], nonce)) <= OUTBOX_MAX_BYTES)
    {
      r := Transition(fingerprint, {Pending, SubmitIntent}, (e: Envelope) => WithIntent(e, nonce), Nonces(fingerprint) + [nonce], s);
    }

    /** markSubmitted: only for an issue whose body is the packet's own. */
    method MarkSubmitted(fingerprint: Text, issue: Issue, s: Storage) returns (r: Outcome)
      requires Inv()
      modifies this`files, this`strays, this`intents
      ensures Inv() && files.Keys == old(files).Keys && KeepsPackets(old(files), files) && SameNonces(old(intents), intents)
      ensures r.Done? || r.Lost? || r.Refused?
      ensures r.Done? ==> fingerprint in files && files[fingerprint].status == Submitted && files[fingerprint].issue == Some(issue.number)
                          && files[fingerprint].packet.body == issue.body
      ensures files == old(files) || (fingerprint in old(files) && files == old(files)[fingerprint := WithIssue(old(files)[fingerprint], issue)])
      ensures Smooth(s) && Unsubmitted(old(files), fingerprint) && issue.body == old(files)[fingerprint].packet.body ==>
                (r.Done? <==> sizeOf(WithIssue(old(files)[fingerprint], issue)) <= OUTBOX_MAX_BYTES)
    {
      if fingerprint !in files || issue.body != files[fingerprint].packet.body { return Refused(InvalidState); }
      r := Transition(fingerprint, {Pending, SubmitIntent}, (e: Envelope) => WithIssue(e, issue), Nonces(fingerprint), s);
    }

    method Quarantine(fingerprint: Text, code: Text, s: Storage) returns (r: Outcome)
      requires Inv()
      modifies this`files, this`strays, this`intents
      ensures Inv() && files.Keys == old(files).Keys && KeepsPackets(old(files), files) && SameNonces(old(intents), intents)
      ensures r.Done? ==> fingerprint in files && files[fingerprint].status == Quarantined && files[fingerprint].errorCode == Some(code)
      ensures Smooth(s) ==> (r == Refused(NotFound) <==> fingerprint !in old(files))
    {
      r := Transition(fingerprint, {Pending, SubmitIntent, Submitted, Quarantined},
                      (e: Envelope) => e.(status := Quarantined, errorCode := Some(code)), Nonces(fingerprint), s);
    }

    /** recoverSubmitIntent: an intent whose issue is found is submitted; one whose issue is not stays an intent. */
    method RecoverSubmitIntent(fingerprint: Text, w: Provider, s: Storage) returns (r: Outcome)
      requires Inv()
      modifies this`files, this`strays, this`intents
      ensures Inv() && files.Keys == old(files).Keys && KeepsPackets(old(files), files) && SameNonces(old(intents), intents)
      ensures r.AlreadyThere? || r.NotCreated? || r.Ambiguous? || r.Refused? || r.Lost?
      ensures r.AlreadyThere? ==> fingerprint in files && files[fingerprint].status == Submitted
      ensures r.NotCreated? ==>
                && files == old(files) && intents == old(intents) && fingerprint in files && files[fingerprint].status == SubmitIntent
                && !Discoverable(issues, files[fingerprint].packet.marker)
      ensures fingerprint in old(files) && old(files)[fingerprint].status == SubmitIntent ==>
                && (r.Ambiguous? <==> !Answers(w))
                && (r.NotCreated? <==> Answers(w) && !Discoverable(issues, old(files)[fingerprint].packet.marker))
    {
      if fingerprint !in files { return Refused(NotFound); }
      if files[fingerprint].status != SubmitIntent { return Refused(InvalidState); }
      var found := DiscoverExisting(files[fingerprint].packet, w);
      if found.Existing? {
        var marked := MarkSubmitted(fingerprint, found.issue, s);
        return if marked.Done? then AlreadyThere(found.issue.number) else marked;
      }
      r := if found.Absent? then NotCreated else Ambiguous;
    }

    /** The bytes the outbox's own files occupy. */
    function Occupied(): nat
      reads this`files, this`strays
    {
      Sum(SizesOf(files, sizeOf)) + Sum(strays)
    }

    method HasRoom(incoming: nat) returns (room: bool)
      ensures room <==> |files| < OUTBOX_MAX_PACKETS && Occupied() + incoming <= OUTBOX_MAX_BYTES
    {
      var sizes := SizesOf(files, sizeOf);
      DirectoryTotals(sizes, strays);
      assert |files.Keys| == |files|;
      room := HasCapacity(DirectoryEntries(sizes, strays), incoming);
    }

    /** The rename that makes a new packet file appear. */
    method Admit(packet: Packet)
      requires Inv() && PacketOk(packet) && packet.fingerprint !in files && |files| < OUTBOX_MAX_PACKETS
      modifies this`files, this`intents
      ensures Inv() && files == old(files)[packet.fingerprint := Fresh(packet)]
      ensures SameNonces(old(intents), intents)
    {
      var envelope := Fresh(packet);
      UpdateKeepsFiles(files, packet.fingerprint, envelope, intents, []);
      UpdateKeepsCreates(files, packet.fingerprint, envelope, issues, created);
      files, intents := files[packet.fingerprint := envelope], intents[packet.fingerprint := []];
    }

    /** enqueue: a packet already there is left alone, a new one is admitted while there is room. */
    method Enqueue(packet: Packet, s: Storage) returns (r: Outcome)
      requires Inv()
      modifies this`files, this`strays, this`intents
      ensures Inv()
      ensures r.Done? ==> packet.fingerprint in files && files[packet.fingerprint].packet == packet
      ensures KeepsPackets(old(files), files) && SameNonces(old(intents), intents)
      ensures s.busy || !PacketOk(packet) || packet.fingerprint in old(files) || !old(HasRoomFor(packet)) ==>
                files == old(files) && strays == old(strays)
      ensures s.busy ==> r == Refused(Busy)
      ensures !s.busy && !PacketOk(packet) ==> r == Refused(InvalidState)
      ensures !s.busy && PacketOk(packet) && packet.fingerprint in old(files) ==>
                r == if old(files)[packet.fingerprint].packet == packet then Done(0) else Refused(InvalidState)
      ensures !s.busy && PacketOk(packet) && packet.fingerprint !in old(files) && !old(HasRoomFor(packet)) ==> r == Refused(Quota)
      ensures !s.busy && PacketOk(packet) && packet.fingerprint !in old(files) && old(HasRoomFor(packet)) ==>
                && files == (if s.temporary && s.renamed then old(files)[packet.fingerprint := Fresh(packet)] else old(files))
                && strays == old(strays) + (if s.temporary && !s.renamed then [sizeOf(Fresh(packet))] else [])
                && r == if s.temporary && s.lost then Lost else if s.temporary && s.renamed && s.synced then Done(0) else Refused(NoStorage)
    {
      if s.busy { return Refused(Busy); }
      if !PacketOk(packet) { return Refused(InvalidState); }
      if packet.fingerprint in files {
        return if files[packet.fingerprint].packet == packet then Done(0) else Refused(InvalidState);
      }
      var room := HasRoom(sizeOf(Fresh(packet)));
      if !room { return Refused(Quota); }
      r := Place(packet, s);
    }

    /** The file of a new packet is written and renamed into place. */
    method Place(packet: Packet, s: Storage) returns (r: Outcome)
      requires Inv() && PacketOk(packet) && packet.fingerprint !in files && |files| < OUTBOX_MAX_PACKETS
      modifies this`files, this`strays, this`intents
      ensures Inv() && SameNonces(old(intents), intents)
      ensures files == if s.temporary && s.renamed then old(files)[packet.fingerprint := Fresh(packet)] else old(files)
      ensures strays == old(strays) + if s.temporary && !s.renamed then [sizeOf(Fresh(packet))] else []
      ensures r == if s.temporary && s.lost then Lost else if s.temporary && s.renamed && s.synced then Done(0) else Refused(NoStorage)
    {
      if !s.temporary { return Refused(NoStorage); }
      if !s.renamed {
        strays := strays + [sizeOf(Fresh(packet))];
        return if s.lost then Lost else Refused(NoStorage);
      }
      Admit(packet);
      r := if s.lost then Lost else if s.synced then Done(0) else Refused(NoStorage);
    }

    function Fresh(packet: Packet): Envelope {
      Envelope(Pending, packet, None, None, None)
    }

    /** Fewer packets than the limit, and bytes left for one more. */
    ghost predicate HasRoomFor(packet: Packet)
      reads this
    {
      |files| < OUTBOX_MAX_PACKETS && Occupied() + sizeOf(Fresh(packet)) <= OUTBOX_MAX_BYTES
    }

    /** executeDurableIntent: discover once more, and only then create. */
    method ExecuteDurableIntent(packet: Packet, number: nat, w: Provider, c: Creation) returns (r: Outcome, issue: Option<Issue>)
      requires Inv()
      requires packet.fingerprint in files && files[packet.fingerprint].packet == packet && files[packet.fingerprint].status == SubmitIntent
      modifies this`issues, this`created
      ensures Inv()
      ensures OpenedFor(old(issues), old(created), issues, created, packet, number)
      ensures r.Done? || r.AlreadyThere? ==> issue.Some? && issue.value in issues && Contains(issue.value.body, packet.marker)
      ensures r.Done? ==> r == Done(number) && issue == Some(Issue(number, packet.body)) && issues == old(issues) + [Issue(number, packet.body)]
      ensures r.AlreadyThere? <==> Answers(w) && old(Discoverable(issues, packet.marker))
      ensures r.Lost? <==> Answers(w) && !old(Discoverable(issues, packet.marker)) && (c.lostBefore || (c.lands && c.lostAfter))
      ensures r.Done? || r.AlreadyThere? || r.Lost? || r.Ambiguous?
      ensures issues != old(issues) <==> Answers(w) && !old(Discoverable(issues, packet.marker)) && c.lands && !c.lostBefore
      ensures r.Done? <==> Answers(w) && !old(Discoverable(issues, packet.marker)) && !c.lostBefore && c.lands && c.answered && !c.lostAfter
    {
      issue := None;
      var found := DiscoverExisting(packet, w);
      if found.Existing? { return AlreadyThere(found.issue.number), Some(found.issue); }
      if !found.Absent? { return Ambiguous, None; }
      var answer, lost := CreateIssue(packet, number, c);
      if lost { return Lost, None; }
      if answer.None? { return Ambiguous, None; }
      assert PacketOk(packet);
      r, issue := Done(answer.value.number), answer;
    }

    /** The intent and the submitted form of a file fit the size limit. */
    predicate Stores(e: Envelope, nonce: Text, issue: Issue) {
      sizeOf(WithIntent(e, nonce)) <= OUTBOX_MAX_BYTES && sizeOf(WithIssue(WithIntent(e, nonce), issue)) <= OUTBOX_MAX_BYTES
    }

    /** flush, under the packet's submission lock. */
    method Flush(fingerprint: Text, authority: Option<Authority>, number: nat, w: World) returns (r: Outcome)
      requires Inv()
      modifies this
      ensures Inv() && files.Keys == old(files).Keys && KeepsPackets(old(files), files)
      ensures r.Done? || r.AlreadyThere? ==> fingerprint in files && files[fingerprint].status == Submitted
      ensures w.busy ==> r == Refused(Busy) && files == old(files) && issues == old(issues)
      ensures fingerprint !in old(files) || old(files)[fingerprint].status in {Submitted, Quarantined} ==>
                files == old(files) && issues == old(issues) && r.Refused?
      ensures if fingerprint in old(files) then OpenedFor(old(issues), old(created), issues, created, old(files)[fingerprint].packet, number)
              else issues == old(issues) && created == old(created)
      ensures issues != old(issues) ==>
                && authority.Some? && authorizes(old(files)[fingerprint].packet, authority.value)
                && old(files)[fingerprint].nonce != Some(authority.value.nonce)
                && !old(Discoverable(issues, files[fingerprint].packet.marker))
      ensures old(NoncesAlternate()) ==> NoncesAlternate()
      // Nothing in the way, the issue is opened and the packet submitted.
      ensures Calm(w) && Ready(old(files), old(issues), fingerprint, authority, number) ==>
                r == Done(number) && issues == old(issues) + [Issue(number, old(files)[fingerprint].packet.body)]
                && files[fingerprint].issue == Some(number)
    {
      if w.busy { return Refused(Busy); }
      if fingerprint !in files { return Refused(NotFound); }
      var loaded := files[fingerprint];
      if loaded.status == Quarantined || loaded.status == Submitted { return Refused(InvalidState); }
      if loaded.status == SubmitIntent {
        var recovered := RecoverSubmitIntent(fingerprint, w.first, w.recovered);
        if old(NoncesAlternate()) { SameNoncesAlternate(old(intents), intents); }
        if !recovered.NotCreated? { return recovered; }
        if authority.None? || loaded.nonce == Some(authority.value.nonce) { return Unauthorized; }
      }
      if authority.None? || !authorizes(loaded.packet, authority.value) { return Unauthorized; }
      r := CreateUnder(fingerprint, authority.value.nonce, number, w);
    }

    /** A packet that can be submitted under an authority, and has no issue yet. */
    predicate Ready(was: map<Text, Envelope>, open: seq<Issue>, fingerprint: Text, authority: Option<Authority>, number: nat) {
      && fingerprint in was && was[fingerprint].status in {Pending, SubmitIntent}
      && authority.Some? && authorizes(was[fingerprint].packet, authority.value) && was[fingerprint].nonce != Some(authority.value.nonce)
      && !Discoverable(open, was[fingerprint].packet.marker)
      && Stores(was[fingerprint], authority.value.nonce, Issue(number, was[fingerprint].packet.body))
    }

    /** The rest of a flush: a fresh intent, then the durable one executed and its issue recorded. */
    method CreateUnder(fingerprint: Text, nonce: Text, number: nat, w: World) returns (r: Outcome)
      requires Inv() && fingerprint in files && files[fingerprint].status in {Pending, SubmitIntent}
      requires files[fingerprint].nonce != Some(nonce)
      modifies this
      ensures Inv() && files.Keys == old(files).Keys && KeepsPackets(old(files), files)
      ensures r.Done? || r.AlreadyThere? ==> files[fingerprint].status == Submitted
      ensures OpenedFor(old(issues), old(created), issues, created, old(files)[fingerprint].packet, number)
      ensures issues != old(issues) ==> !old(Discoverable(issues, files[fingerprint].packet.marker))
      ensures old(NoncesAlternate()) ==> NoncesAlternate()
      ensures Calm(w) && !old(Discoverable(issues, files[fingerprint].packet.marker)) ==>
              Stores(old(files)[fingerprint], nonce, Issue(number, old(files)[fingerprint].packet.body)) ==>
                r == Done(number) && issues == old(issues) + [Issue(number, old(files)[fingerprint].packet.body)]
                && files[fingerprint].issue == Some(number)
    {
      ghost var was, wasIntents := files, intents;
      var intent := MarkSubmitIntent(fingerprint, nonce, w.intent);
      if AllAlternate(wasIntents) { DifferentNonceAlternates(wasIntents, fingerprint, nonce); }
      if !intent.Done? { return intent; }
      RecordingKeepsPackets(was, wasIntents, files, intents, fingerprint, nonce);
      r := CreateAndMark(fingerprint, number, w);
    }

    /** A durable intent executed, and its issue recorded. */
    method CreateAndMark(fingerprint: Text, number: nat, w: World) returns (r: Outcome)
      requires Inv() && fingerprint in files && files[fingerprint].status == SubmitIntent
      modifies this
      ensures Inv() && files.Keys == old(files).Keys && KeepsPackets(old(files), files)
      ensures r.Done? || r.AlreadyThere? ==> files[fingerprint].status == Submitted
      ensures OpenedFor(old(issues), old(created), issues, created, old(files)[fingerprint].packet, number)
      ensures issues != old(issues) ==> !old(Discoverable(issues, files[fingerprint].packet.marker))
      ensures old(NoncesAlternate()) ==> NoncesAlternate()
      ensures Calm(w) && !old(Discoverable(issues, files[fingerprint].packet.marker)) ==>
              sizeOf(WithIssue(old(files)[fingerprint], Issue(number, old(files)[fingerprint].packet.body))) <= OUTBOX_MAX_BYTES ==>
                r == Done(number) && issues == old(issues) + [Issue(number, old(files)[fingerprint].packet.body)]
                && files[fingerprint].issue == Some(number)
    {
      var issue;
      r, issue := ExecuteDurableIntent(files[fingerprint].packet, number, w.second, w.creation);
      if r.Done? || r.AlreadyThere? {
        var marked := Mark(fingerprint, issue.value, w);
        if !marked.Done? { return marked; }
      }
    }

    method Mark(fingerprint: Text, issue: Issue, w: World) returns (r: Outcome)
      requires Inv() && fingerprint in files && files[fingerprint].status == SubmitIntent
      modifies this`files, this`strays, this`intents
      ensures Inv() && files.Keys == old(files).Keys && KeepsPackets(old(files), files)
      ensures r.Done? || r.Lost? || r.Refused?
      ensures w.lost ==> r == Lost && files == old(files)
      ensures r.Done? ==> files[fingerprint].status == Submitted && files[fingerprint].issue == Some(issue.number)
      ensures old(NoncesAlternate()) ==> NoncesAlternate()
      ensures !w.lost && Smooth(w.mark) && issue.body == old(files)[fingerprint].packet.body ==>
                (r.Done? <==> sizeOf(WithIssue(old(files)[fingerprint], issue)) <= OUTBOX_MAX_BYTES)
    {
      if w.lost { return Lost; }
      r := MarkSubmitted(fingerprint, issue, w.mark);
      if old(NoncesAlternate()) { SameNoncesAlternate(old(intents), intents); }
    }

    /** One move of a history. */
    method Act(call: Call)
      requires Inv() && NoncesAlternate()
      modifies this
      ensures Inv() && NoncesAlternate() && KeepsPackets(old(files), files)
    {
      if call.Flushes? {
        var flushed := Flush(call.fingerprint, call.authority, call.number, call.w);
      } else if call.OthersOpen? {
        Others(call.more);
      } else {
        File(call);
        SameNoncesAlternate(old(intents), intents);
      }
    }

    /** The moves that only write packet files, and record no intent. */
    method File(call: Call)
      requires Inv() && !call.Flushes? && !call.OthersOpen?
      modifies this
      ensures Inv() && SameNonces(old(intents), intents) && KeepsPackets(old(files), files)
    {
      var outcome;
      match call
      case Enqueues(packet, s) => outcome := Enqueue(packet, s);
      case Recovers(fingerprint, provider, s) => outcome := RecoverSubmitIntent(fingerprint, provider, s);
      case Quarantines(fingerprint, code, s) => outcome := Quarantine(fingerprint, code, s);
      case _ => assert false;
    }

    /**
     Any history of packets enqueued, flushed, recovered and quarantined, each call lost anywhere, with any
     authorities and with others opening issues: no packet ever has more than one issue created for it,
     successive intents carry different nonces, no packet is lost or replaced, and there are at most 100.
     */
    method History(calls: seq<Call>)
      requires Inv() && NoncesAlternate()
      modifies this
      ensures Inv() && NoncesAlternate() && KeepsPackets(old(files), files)
      ensures forall f :: Created(f) <= 1
      ensures forall f :: Alternating(Nonces(f))
      ensures |files| <= OUTBOX_MAX_PACKETS
    {
      for k := 0 to |calls|
        invariant Inv() && NoncesAlternate() && KeepsPackets(old(files), files)
      {
        Act(calls[k]);
      }
    }
  }
}
