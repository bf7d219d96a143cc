/** One account-sync exchange of a conversation between two own devices. */
module Exchange {
  import opened Common
  import opened Messages
  import opened Threads
  import opened Slotting

  const SYNC_WINDOW: nat := 1000
  const MSG_BUDGET: nat := 24 * 1024 * 1024

  // ---------- digests ----------

  /** What the fingerprint of a message covers; fingerprints are taken to be injective. */
  datatype Print = Print(rev: U64, rank: nat, deleted: bool, edited: bool, textRev: U64, revs: multiset<ReactionRev>)

  function PrintOf(m: Message): Print {
    Print(m.rev, Rank(m.status), m.deleted, m.edited, m.textRev, multiset(m.reactionRevs))
  }

  type Digest = seq<(SyncKey, Print)>

  /** Key and fingerprint of the newest messages, oldest first. */
  function DigestOf(t: Thread): Digest {
    var w := Newest(t, SYNC_WINDOW);
    seq(|w|, i requires 0 <= i < |w| => (KeyOf(w[i]), PrintOf(w[i])))
  }

  /** Keys of `mine` whose fingerprint `theirs` lacks or has differently. */
  function Differing(mine: Digest, theirs: Digest): set<SyncKey> {
    set e | e in mine && e !in theirs :: e.0
  }

  // ---------- what is sent ----------

  function Select(t: Thread, keys: set<SyncKey>): seq<Message> {
    if t == [] then []
    else (if KeyOf(t[0]) in keys then [t[0].(path := None)] else []) + Select(t[1..], keys)
  }

  function Reverse(s: seq<Message>): (r: seq<Message>)
    ensures |r| == |s|
  {
    if s == [] then [] else Reverse(s[1..]) + [s[0]]
  }

  /** As many messages from the front as the budget allows, and what is left of it. */
  function TakeWithin(s: seq<Message>, size: Message -> nat, budget: nat): (r: (seq<Message>, nat)) {
    if s == [] then (s, budget)
    else if size(s[0]) > budget then ([], 0)
    else
      var rest := TakeWithin(s[1..], size, budget - size(s[0]));
      ([s[0]] + rest.0, rest.1)
  }

  function TotalSize(s: seq<Message>, size: Message -> nat): nat {
    if s == [] then 0 else size(s[0]) + TotalSize(s[1..], size)
  }

  /** The cut is a front piece (so the newest go first), never past the budget, and whole when it fits. */
  lemma {:induction false} TakenIsNewest(s: seq<Message>, size: Message -> nat, budget: nat)
    ensures var r := TakeWithin(s, size, budget);
            && r.0 <= s
            && TotalSize(r.0, size) + r.1 <= budget
            && (TotalSize(s, size) <= budget ==> r.0 == s)
            && (s != [] && size(s[0]) <= budget ==> r.0 != [])
  {
    if s != [] && size(s[0]) <= budget {
      TakenIsNewest(s[1..], size, budget - size(s[0]));
      assert s == [s[0]] + s[1..];
    }
  }

  // ---------- one exchange with room in the budget ----------

  /** Both threads after the dialer `a` and the listener `b` exchanged everything that differs. */
  function Exchanged(a: Thread, b: Thread): (Thread, Thread) {
    if DigestOf(a) == DigestOf(b) then (a, b)
    else
      var sent := Reverse(Select(a, Differing(DigestOf(a), DigestOf(b))));
      var b' := MergeSynced(b, sent);
      var back := Reverse(Select(b', Differing(DigestOf(b), DigestOf(a))));
      (MergeSynced(a, back), b')
  }
}
