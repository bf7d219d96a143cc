/** One chat message, the local changes to it, and the merge of two copies of it. */
module Messages {
  import opened Common

  /** An emoji and which of the two people in the chat put it there. */
  datatype Reaction = Reaction(emoji: string, fromMe: bool)

  /** The clock of one reaction: its last change, and whether that put it on. */
  datatype ReactionRev = ReactionRev(key: Reaction, at: U64, on: bool)

  datatype Status = Sending | Failed | Held | Sent | Delivered | Read

  datatype Message = Message(
    id: string,
    fromMe: bool,
    ts: U64,
    order: U64,                   // the per-thread Lamport clock
    text: string,
    edited: bool,
    deleted: bool,
    linkPreview: Option<string>,
    files: seq<string>,
    gif: Option<string>,
    path: Option<string>,
    status: Option<Status>,
    serverNote: Option<string>,
    fileXferId: Option<string>,
    reactions: seq<Reaction>,
    rev: U64,
    textRev: U64,
    reactionRevs: seq<ReactionRev>)

  /** A message with nothing in it. */
  const BLANK := Message("", true, 0, 0, "", false, false, None, [], None, None, None, None, None, [], 0, 0, [])

  /** Identity across devices: direction and id. */
  type SyncKey = (bool, string)

  function KeyOf(m: Message): SyncKey {
    (m.fromMe, m.id)
  }

  // ---------- local changes ----------

  /** One past the last change, or the clock; the addition wraps at 64 bits. */
  function BumpRev(now: U64, rev: U64): U64 {
    Max(now, if rev == U64_MAX then 0 else rev + 1)
  }

  function FindRev(revs: seq<ReactionRev>, key: Reaction): (r: Option<nat>)
    ensures r.Some? ==> r.value < |revs| && revs[r.value].key == key
    ensures r.None? ==> forall i :: 0 <= i < |revs| ==> revs[i].key != key
  {
    if revs == [] then None
    else if revs[0].key == key then Some(0)
    else
      match FindRev(revs[1..], key)
      case None => None
      case Some(i) => Some(i + 1)
  }

  function NoteReactionRev(revs: seq<ReactionRev>, key: Reaction, at: U64, on: bool): seq<ReactionRev> {
    match FindRev(revs, key)
    case Some(i) => revs[i := ReactionRev(key, Max(revs[i].at, at), on)]
    case None => revs + [ReactionRev(key, at, on)]
  }

  function Remove(s: seq<Reaction>, r: Reaction): seq<Reaction> {
    if s == [] then [] else if s[0] == r then s[1..] else [s[0]] + Remove(s[1..], r)
  }

  /** Add or remove a reaction; asking for what already is changes nothing. */
  function ApplyReaction(m: Message, key: Reaction, add: bool, now: U64): Message {
    if add == (key in m.reactions) then m
    else
      var at := BumpRev(now, m.rev);
      m.(reactions := if add then m.reactions + [key] else Remove(m.reactions, key),
         rev := at,
         reactionRevs := NoteReactionRev(m.reactionRevs, key, at, add))
  }

  /** Edit the text; only the author may, and only before it is unsent. `hasLink`: the new text has a link. */
  function ApplyEdit(m: Message, text: string, hasLink: bool, authorIsMe: bool, now: U64): Option<Message> {
    if m.deleted || m.fromMe != authorIsMe then None
    else
      var at := BumpRev(now, m.rev);
      Some(m.(text := text, edited := true, rev := at, textRev := at,
              linkPreview := if hasLink then m.linkPreview else None))
  }

  /** Unsend: clear the content and leave a tombstone. */
  function ApplyDelete(m: Message, authorIsMe: bool, now: U64): Option<Message> {
    if m.fromMe != authorIsMe then None
    else
      var at := BumpRev(now, m.rev);
      Some(m.(deleted := true, text := "", linkPreview := None, files := [], path := None, gif := None,
              reactions := [], rev := at, textRev := at))
  }

  // ---------- merging two copies ----------

  /** Clocks an older build's copy is read with: its state as of its last change. */
  function LegacyClocks(c: Message, other: Message): Message {
    if c.rev == 0 || c.textRev > 0 || c.reactionRevs != [] then c
    else if other.textRev == 0 && other.reactionRevs == [] then c
    else
      c.(textRev := if c.edited then c.rev else c.textRev,
         reactionRevs := OnRevs(c.reactions, c.rev) + OffRevs(other.reactionRevs, c.reactions, c.rev))
  }

  function OnRevs(rs: seq<Reaction>, at: U64): seq<ReactionRev> {
    seq(|rs|, i requires 0 <= i < |rs| => ReactionRev(rs[i], at, true))
  }

  function OffRevs(revs: seq<ReactionRev>, on: seq<Reaction>, at: U64): seq<ReactionRev> {
    if revs == [] then []
    else (if revs[0].key in on then [] else [ReactionRev(revs[0].key, at, false)]) + OffRevs(revs[1..], on, at)
  }

  /** The later mark wins; a tie keeps the removal. */
  predicate Beats(r: ReactionRev, o: ReactionRev) {
    r.at > o.at || (r.at == o.at && !r.on)
  }

  function TakeRev(revs: seq<ReactionRev>, r: ReactionRev): seq<ReactionRev> {
    match FindRev(revs, r.key)
    case Some(i) => if Beats(r, revs[i]) then revs[i := r] else revs
    case None => revs + [r]
  }

  function TakeRevs(revs: seq<ReactionRev>, more: seq<ReactionRev>): seq<ReactionRev> {
    if more == [] then revs
    else TakeRev(TakeRevs(revs, more[..|more| - 1]), more[|more| - 1])
  }

  /** A reaction stays while its clock says on; without a clock the newer record decides. */
  predicate Keeps(r: Reaction, revs: seq<ReactionRev>, newer: seq<Reaction>) {
    match FindRev(revs, r)
    case Some(i) => revs[i].on
    case None => r in newer
  }

  function KeepLive(rs: seq<Reaction>, revs: seq<ReactionRev>, newer: seq<Reaction>): seq<Reaction> {
    if rs == [] then []
    else
      var live, r := KeepLive(rs[..|rs| - 1], revs, newer), rs[|rs| - 1];
      if r !in live && Keeps(r, revs, newer) then live + [r] else live
  }

  function AddClocked(live: seq<Reaction>, revs: seq<ReactionRev>): seq<Reaction> {
    if revs == [] then live
    else
      var l, c := AddClocked(live, revs[..|revs| - 1]), revs[|revs| - 1];
      if c.on && c.key !in l then l + [c.key] else l
  }

  predicate TextNewer(x: Message, m: Message) {
    if m.textRev == 0 && x.textRev == 0 then m.rev > x.rev || (m.rev == x.rev && m.edited && !x.edited)
    else m.textRev > x.textRev
  }

  function MergeText(x: Message, m: Message): Message {
    if TextNewer(x, m) then
      x.(text := m.text, edited := m.edited, linkPreview := m.linkPreview, textRev := m.textRev)
    else x
  }

  function MergeReactions(x: Message, m: Message): seq<Reaction> {
    var revs := TakeRevs(x.reactionRevs, m.reactionRevs);
    AddClocked(KeepLive(x.reactions + m.reactions, revs, if m.rev > x.rev then m.reactions else x.reactions), revs)
  }

  /** Merge the copy `m` into ours: an unsend wins, text and reactions follow their own clocks. */
  function MergeFields(x0: Message, m0: Message): Message {
    var m := LegacyClocks(m0, x0);
    MergeRead(LegacyClocks(x0, m), m)
  }

  /** The merge once both copies are read with clocks. */
  function MergeRead(x: Message, m: Message): Message {
    if x.deleted then x.(rev := Max(x.rev, m.rev))
    else if m.deleted then
      x.(deleted := true, text := "", files := [], gif := None, path := None, linkPreview := None,
         reactions := [], textRev := Max(x.textRev, m.textRev), rev := Max(x.rev, m.rev))
    else
      MergeText(x, m).(
        reactions := MergeReactions(x, m),
        reactionRevs := TakeRevs(x.reactionRevs, m.reactionRevs),
        rev := Max(x.rev, m.rev))
  }

  /** Confirmed delivery progress; everything short of delivered ranks lowest. */
  function Rank(s: Option<Status>): nat {
    match s
    case Some(Read) => 2
    case Some(Delivered) => 1
    case _ => 0
  }

  /** A copy from another own device: its path means nothing here, nor is it ours to deliver. */
  function Incoming(m: Message): Message {
    m.(path := None, status := if m.fromMe && Rank(m.status) == 0 then Some(Sent) else m.status)
  }

  /** Merge a copy that came in: content by its clocks, delivery by the furthest progress. */
  function MergeCopy(x: Message, m: Message): Message {
    var y := MergeFields(x, m);
    if y.fromMe && Rank(m.status) > Rank(y.status) then y.(status := m.status) else y
  }

  /** The merge as the program runs it: loops over the clocks and the reactions of both copies. */
  method MergeCopies(x0: Message, m0: Message) returns (out: Message)
    ensures out == MergeFields(x0, m0)
  {
    var m := LegacyClocks(m0, x0);
    out := LegacyClocks(x0, m);
    if out.deleted {
      out := out.(rev := Max(out.rev, m.rev));
      return;
    }
    if m.deleted {
      out := out.(deleted := true, text := "", files := [], gif := None, path := None, linkPreview := None,
                  reactions := [], textRev := Max(out.textRev, m.textRev), rev := Max(out.rev, m.rev));
      return;
    }
    var x := out;
    if TextNewer(x, m) {
      out := out.(text := m.text, edited := m.edited, linkPreview := m.linkPreview, textRev := m.textRev);
    }
    var revs := x.reactionRevs;
    for i := 0 to |m.reactionRevs|
      invariant revs == TakeRevs(x.reactionRevs, m.reactionRevs[..i])
    {
      assert m.reactionRevs[..i + 1][..i] == m.reactionRevs[..i];
      var r := m.reactionRevs[i];
      match FindRev(revs, r.key) {
        case Some(j) => if Beats(r, revs[j]) { revs := revs[j := r]; }
        case None => revs := revs + [r];
      }
    }
    assert m.reactionRevs[..|m.reactionRevs|] == m.reactionRevs;
    var newer := if m.rev > x.rev then m.reactions else x.reactions;
    var live := LiveReactions(x.reactions + m.reactions, revs, newer);
    out := out.(reactions := live, reactionRevs := revs, rev := Max(x.rev, m.rev));
  }

  method LiveReactions(all: seq<Reaction>, revs: seq<ReactionRev>, newer: seq<Reaction>) returns (live: seq<Reaction>)
    ensures live == AddClocked(KeepLive(all, revs, newer), revs)
  {
    live := [];
    for i := 0 to |all|
      invariant live == KeepLive(all[..i], revs, newer)
    {
      assert all[..i + 1][..i] == all[..i];
      if all[i] !in live && Keeps(all[i], revs, newer) {
        live := live + [all[i]];
      }
    }
    assert all[..|all|] == all;
    ghost var kept := live;
    for i := 0 to |revs|
      invariant live == AddClocked(kept, revs[..i])
    {
      assert revs[..i + 1][..i] == revs[..i];
      if revs[i].on && revs[i].key !in live {
        live := live + [revs[i].key];
      }
    }
    assert revs[..|revs|] == revs;
  }
}
