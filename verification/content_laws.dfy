/** What reactions, edits and unsends change in a stored thread: the message they name, and nothing else. */
module ContentLaws {
  import opened Common
  import opened Messages
  import opened Threads
  import opened Slotting
  import opened Delivery
  import opened DeliveryLaws
  import opened ChatStore
  import opened Convergence
  import opened Replicas

  /** `r` is `t` with the `i`-th message changed at most. */
  ghost predicate OnlyAt(t: Thread, r: Thread, i: nat) {
    |r| == |t| && forall j: nat :: j < |t| && j != i ==> r[j] == t[j]
  }

  // ---------- reactions ----------

  /** The reaction is on or off as asked, the others and all else as they were. */
  ghost predicate Reacted(x: Message, y: Message, key: Reaction, add: bool) {
    && y == x.(reactions := y.reactions, rev := y.rev, reactionRevs := y.reactionRevs)
    && (key in y.reactions <==> add) && (forall k :: k != key ==> (k in y.reactions <==> k in x.reactions))
    && (add == (key in x.reactions) ==> y == x)
  }

  /** A reaction goes to the first message with that id. */
  lemma ReactionLaw(t: Thread, id: string, key: Reaction, add: bool, now: U64)
    ensures var r := ReactIn(t, id, key, add, now);
            && (forall i: nat :: Named(t, id, i) && NoRepeats(t[i].reactions) ==>
                  OnlyAt(t, r, i) && Reacted(t[i], r[i], key, add))
            && ((forall x :: x in t ==> x.id != id) ==> r == t)
  {
    var test := (m: Message) => m.id == id;
    forall i: nat | Named(t, id, i) && NoRepeats(t[i].reactions)
      ensures var r := ReactIn(t, id, key, add, now); OnlyAt(t, r, i) && Reacted(t[i], r[i], key, add)
    {
      FoundFirst(t, test, i);
      RemoveElements(t[i].reactions, key);
    }
    var f := FindFirst(t, test);
    if f.Some? { assert t[f.value] in t; }
  }

  // ---------- edits and unsends ----------

  /** The first message with that id that `mine` may edit. */
  ghost predicate Editable(t: Thread, id: string, mine: bool, i: nat) {
    && i < |t| && t[i].id == id && t[i].fromMe == mine && !t[i].deleted
    && forall j :: 0 <= j < i ==> !(t[j].id == id && t[j].fromMe == mine && !t[j].deleted)
  }

  ghost predicate Edited(x: Message, y: Message, text: string, hasLink: bool) {
    && y.text == text && y.edited && y.textRev == y.rev
    && y.linkPreview == (if hasLink then x.linkPreview else None)
    && y == x.(text := y.text, edited := y.edited, rev := y.rev, textRev := y.textRev, linkPreview := y.linkPreview)
  }

  /** An edit goes to its author's live message with that id; without one nothing changes. */
  lemma EditLaw(t: Thread, id: string, text: string, hasLink: bool, mine: bool, now: U64)
    ensures var r := EditIn(t, id, text, hasLink, mine, now);
            && (forall i: nat :: Editable(t, id, mine, i) ==>
                  OnlyAt(t, r, i) && Edited(t[i], r[i], text, hasLink))
            && ((forall x :: x in t ==> !(x.id == id && x.fromMe == mine && !x.deleted)) ==> r == t)
  {
    var test := (m: Message) => m.id == id && !m.deleted && m.fromMe == mine;
    forall i: nat | Editable(t, id, mine, i)
      ensures var r := EditIn(t, id, text, hasLink, mine, now); OnlyAt(t, r, i) && Edited(t[i], r[i], text, hasLink)
    {
      FoundFirst(t, test, i);
    }
    var f := FindFirst(t, test);
    if f.Some? { assert t[f.value] in t; }
  }

  ghost predicate Unsent(x: Message, y: Message) {
    && y.deleted && y.text == "" && y.files == [] && y.reactions == [] && y.gif == None && y.path == None
    && y.linkPreview == None && y.textRev == y.rev && SameSlot(x, y) && y.status == x.status && y.edited == x.edited
    && y.reactionRevs == x.reactionRevs && y.fileXferId == x.fileXferId && y.serverNote == x.serverNote
  }

  ghost predicate Authored(t: Thread, id: string, mine: bool, i: nat) {
    && i < |t| && t[i].id == id && t[i].fromMe == mine
    && forall j :: 0 <= j < i ==> !(t[j].id == id && t[j].fromMe == mine)
  }

  /** An unsend empties its author's message with that id; without one nothing changes. */
  lemma UnsendLaw(t: Thread, id: string, mine: bool, now: U64)
    ensures var r := DeleteIn(t, id, mine, now);
            && (forall i: nat :: Authored(t, id, mine, i) ==> OnlyAt(t, r, i) && Unsent(t[i], r[i]))
            && ((forall x :: x in t ==> !(x.id == id && x.fromMe == mine)) ==> r == t)
  {
    var test := (m: Message) => m.id == id && m.fromMe == mine;
    forall i: nat | Authored(t, id, mine, i)
      ensures var r := DeleteIn(t, id, mine, now); OnlyAt(t, r, i) && Unsent(t[i], r[i])
    {
      FoundFirst(t, test, i);
    }
    var f := FindFirst(t, test);
    if f.Some? { assert t[f.value] in t; }
  }
}
