/** From name-level labels to ids and back: what a slot's marks become. */
module KeptLabels {
  import opened Corpus
  import opened Decoding
  import opened Labels
  import opened Options

  /** Marks in strict text order. */
  ghost predicate InOrder(ms: seq<Mark>, n: nat) {
    && (forall i :: 0 <= i < |ms| ==> ms[i].lit < n)
    && (forall i, j :: 0 <= i < j < |ms| ==> ms[i].lit < ms[j].lit)
  }

  ghost predicate Distinct<T(!new)>(s: seq<T>) {
    forall i, j :: 0 <= i < j < |s| ==> s[i] != s[j]
  }

  /** The marks whose pair the vocabulary holds. */
  function InVocab(ms: seq<Mark>, slot: string, vocab: seq<Pair>): (r: seq<Mark>)
    ensures |r| <= |ms|
  {
    if ms == [] then []
    else
      var rest, m := InVocab(ms[..|ms| - 1], slot, vocab), ms[|ms| - 1];
      if Pair(slot, m.role) in vocab then rest + [m] else rest
  }

  lemma InVocabSnoc(ms: seq<Mark>, c: nat, slot: string, vocab: seq<Pair>)
    requires 0 < c <= |ms|
    ensures InVocab(ms[..c], slot, vocab) ==
            InVocab(ms[..c - 1], slot, vocab) + if Pair(slot, ms[c - 1].role) in vocab then [ms[c - 1]] else []
  {
    assert ms[..c][..c - 1] == ms[..c - 1];
  }

  predicate AllKept(ms: seq<Mark>, slot: string, vocab: seq<Pair>) {
    forall m :: m in ms ==> Pair(slot, m.role) in vocab
  }

  lemma {:induction false} AllOrFewer(ms: seq<Mark>, slot: string, vocab: seq<Pair>)
    ensures AllKept(ms, slot, vocab) ==> InVocab(ms, slot, vocab) == ms
    ensures !AllKept(ms, slot, vocab) ==> |InVocab(ms, slot, vocab)| < |ms|
  {
    if ms != [] {
      var init, m := ms[..|ms| - 1], ms[|ms| - 1];
      AllOrFewer(init, slot, vocab);
      assert ms == init + [m];
    }
  }

  /** What `finish` stores: every literal's names as ids. */
  function Ids(pairs: seq<set<Pair>>, vocab: seq<Pair>): (r: seq<seq<nat>>)
    ensures |r| == |pairs| && IdsOk(r, vocab)
  {
    seq(|pairs|, li requires 0 <= li < |pairs| => KeptIds(pairs[li], vocab, |vocab|))
  }

  lemma IdsAtSnoc(ids: seq<nat>, p: nat, li: nat, slot: string, vocab: seq<Pair>)
    requires p < |vocab| && forall k :: 0 <= k < |ids| ==> ids[k] < |vocab|
    ensures IdsAt(ids + [p], li, slot, vocab) ==
            IdsAt(ids, li, slot, vocab) + if vocab[p].slot == slot then [Mark(li, vocab[p].role)] else []
  {
    assert (ids + [p])[..|ids|] == ids;
  }

  /** When `at` is the only pair of the slot among a literal's names, it is what is left. */
  lemma {:induction false} OneRole(names: set<Pair>, vocab: seq<Pair>, n: nat, li: nat, slot: string, at: nat)
    requires n <= |vocab|
    requires forall i :: 0 <= i < |vocab| && vocab[i].slot == slot ==> (vocab[i] in names <==> i == at)
    requires at < |vocab| ==> vocab[at].slot == slot
    ensures IdsAt(KeptIds(names, vocab, n), li, slot, vocab) == if at < n then [Mark(li, vocab[at].role)] else []
    decreases n
  {
    if n > 0 {
      OneRole(names, vocab, n - 1, li, slot, at);
      if vocab[n - 1] in names {
        IdsAtSnoc(KeptIds(names, vocab, n - 1), n - 1, li, slot, vocab);
      }
    }
  }

  /** The only role literal `li` has for the slot, when `c` marks come before the next literal. */
  lemma RoleAt(pairs: seq<set<Pair>>, slot: string, ms: seq<Mark>, li: nat, c: nat, role: Option<Role>)
    requires Represents(pairs, slot, ms) && InOrder(ms, |pairs|) && li < |pairs| && c <= |ms|
    requires forall i :: 0 <= i < |ms| ==> (ms[i].lit <= li <==> i < c)
    requires role == if c > 0 && ms[c - 1].lit == li then Some(ms[c - 1].role) else None
    ensures forall r :: Pair(slot, r) in pairs[li] <==> role == Some(r)
  {
    forall r ensures Pair(slot, r) in pairs[li] <==> role == Some(r) {
      if Mark(li, r) in ms {
        var i :| 0 <= i < |ms| && ms[i] == Mark(li, r);
        assert i < c && c > 0 && ms[c - 1].lit <= li;
        assert i == c - 1;
      }
    }
  }

  lemma MarksAt(pairs: seq<set<Pair>>, vocab: seq<Pair>, slot: string, ms: seq<Mark>, li: nat, c: nat,
      role: Option<Role>)
    requires Distinct(vocab) && Represents(pairs, slot, ms) && InOrder(ms, |pairs|) && li < |pairs| && c <= |ms|
    requires forall i :: 0 <= i < |ms| ==> (ms[i].lit <= li <==> i < c)
    requires role == if c > 0 && ms[c - 1].lit == li then Some(ms[c - 1].role) else None
    ensures IdsAt(Ids(pairs, vocab)[li], li, slot, vocab) ==
            if role.Some? && Pair(slot, role.value) in vocab then [Mark(li, role.value)] else []
  {
    RoleAt(pairs, slot, ms, li, c, role);
    var at := if role.Some? then IndexOf(vocab, Pair(slot, role.value)) else |vocab|;
    forall i | 0 <= i < |vocab| && vocab[i].slot == slot ensures vocab[i] in pairs[li] <==> i == at {
      assert vocab[i] == Pair(slot, vocab[i].role);
    }
    OneRole(pairs[li], vocab, |vocab|, li, slot, at);
  }

  lemma InVocabNothing(ms: seq<Mark>, slot: string, vocab: seq<Pair>)
    requires ms == []
    ensures InVocab(ms, slot, vocab) == []
  {
  }

  /** After `finish`, a slot holds exactly its marks that the vocabulary kept, in order. */
  lemma {:induction false} SlotMarksKept(pairs: seq<set<Pair>>, vocab: seq<Pair>, slot: string, ms: seq<Mark>, n: nat,
      c: nat)
    requires Distinct(vocab) && Represents(pairs, slot, ms) && InOrder(ms, |pairs|)
    requires n <= |pairs| && c <= |ms|
    requires forall i :: 0 <= i < |ms| ==> (ms[i].lit < n <==> i < c)
    ensures SlotMarks(Ids(pairs, vocab), n, slot, vocab) == InVocab(ms[..c], slot, vocab)
    decreases n
  {
    hide IdsAt, InVocab, Ids, Represents, Distinct;
    if n == 0 {
      InVocabNothing(ms[..c], slot, vocab);
    } else {
      if c > 0 && ms[c - 1].lit == n - 1 {
        MarksAt(pairs, vocab, slot, ms, n - 1, c, Some(ms[c - 1].role));
        SlotMarksKept(pairs, vocab, slot, ms, n - 1, c - 1);
        InVocabSnoc(ms, c, slot, vocab);
      } else {
        MarksAt(pairs, vocab, slot, ms, n - 1, c, None);
        SlotMarksKept(pairs, vocab, slot, ms, n - 1, c);
      }
    }
  }

  lemma FinishedMarks(pairs: seq<set<Pair>>, vocab: seq<Pair>, slot: string, ms: seq<Mark>)
    requires Distinct(vocab) && Represents(pairs, slot, ms) && InOrder(ms, |pairs|)
    ensures SlotMarks(Ids(pairs, vocab), |pairs|, slot, vocab) == InVocab(ms, slot, vocab)
  {
    SlotMarksKept(pairs, vocab, slot, ms, |pairs|, |ms|);
    assert ms[..|ms|] == ms;
  }
}
