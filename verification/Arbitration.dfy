/** Which pointer a number is decoded from when its slot is claimed more than once. */
module Arbitration {
  import opened Corpus
  import opened Decoding
  import opened KeptLabels
  import opened Labels
  import opened Maps
  import Masks
  import opened Options

  /** `m` scores higher than `n`, or as high and is later. */
  ghost predicate Beats(m: Mark, n: Mark, slot: string, vocab: seq<Pair>, scores: Scores) {
    var x, y := Score(m, slot, vocab, scores), Score(n, slot, vocab, scores);
    x > y || (x == y && m.lit > n.lit)
  }

  /** Marks that compete: two one-literal pointers, or the same operand. */
  predicate Rivals(m: Mark, n: Mark) {
    m.role == n.role || (m.role.Point? && n.role.Point?)
  }

  ghost predicate WinsAt(ms: seq<Mark>, j: int, slot: string, vocab: seq<Pair>, scores: Scores) {
    && 0 <= j < |ms|
    && (forall i :: 0 <= i < j && Rivals(ms[i], ms[j]) ==> Beats(ms[j], ms[i], slot, vocab, scores))
    && forall i :: j < i < |ms| && Rivals(ms[i], ms[j]) ==> !Beats(ms[i], ms[j], slot, vocab, scores)
  }

  /** `m` is a mark that beats its rivals before it and is beaten by none after it. */
  ghost predicate Winner(ms: seq<Mark>, m: Mark, slot: string, vocab: seq<Pair>, scores: Scores) {
    m in ms && exists j :: WinsAt(ms, j, slot, vocab, scores) && ms[j] == m
  }

  lemma WinsAlone(init: seq<Mark>, last: Mark, slot: string, vocab: seq<Pair>, scores: Scores)
    requires forall m :: m in init ==> !Rivals(m, last)
    ensures Winner(init + [last], last, slot, vocab, scores)
  {
    var ms := init + [last];
    assert forall i :: 0 <= i < |init| ==> ms[i] == init[i];
    assert WinsAt(ms, |init|, slot, vocab, scores);
  }

  /** A winner stays one when what comes last is no rival or does not beat it. */
  lemma StillWins(init: seq<Mark>, last: Mark, m: Mark, slot: string, vocab: seq<Pair>, scores: Scores)
    requires Winner(init, m, slot, vocab, scores) && !(Rivals(last, m) && Beats(last, m, slot, vocab, scores))
    ensures Winner(init + [last], m, slot, vocab, scores)
  {
    hide Beats, Rivals;
    var ms := init + [last];
    var j :| WinsAt(init, j, slot, vocab, scores) && init[j] == m;
    assert forall i :: 0 <= i < |init| ==> ms[i] == init[i];
    assert WinsAt(ms, j, slot, vocab, scores) && ms[j] == m;
  }

  /** It loses to a rival that beats it. */
  lemma WinsLast(init: seq<Mark>, last: Mark, m: Mark, slot: string, vocab: seq<Pair>, scores: Scores)
    requires Winner(init, m, slot, vocab, scores) && Rivals(last, m) && Beats(last, m, slot, vocab, scores)
    ensures Winner(init + [last], last, slot, vocab, scores)
  {
    hide Beats, Rivals;
    var ms := init + [last];
    var j :| WinsAt(init, j, slot, vocab, scores) && init[j] == m;
    forall i | 0 <= i < |init| && Rivals(ms[i], last) ensures Beats(last, ms[i], slot, vocab, scores) {
      assert ms[i] == init[i];
      RivalsOfOne(ms[i], last, m);
      BeatsOn(last, m, ms[i], slot, vocab, scores);
    }
    assert WinsAt(ms, |init|, slot, vocab, scores) && ms[|init|] == last;
  }

  lemma RivalsOfOne(a: Mark, b: Mark, c: Mark)
    requires Rivals(a, b) && Rivals(b, c)
    ensures Rivals(a, c)
  {
  }

  lemma BeatsOn(a: Mark, b: Mark, c: Mark, slot: string, vocab: seq<Pair>, scores: Scores)
    requires Beats(a, b, slot, vocab, scores)
    ensures !Beats(c, b, slot, vocab, scores) ==> Beats(a, c, slot, vocab, scores)
    ensures Beats(b, c, slot, vocab, scores) ==> Beats(a, c, slot, vocab, scores)
  {
    hide Score;
  }

  lemma {:induction false} PointsWin(ms: seq<Mark>, slot: string, vocab: seq<Pair>, scores: Scores)
    requires Points(ms) != []
    ensures Winner(ms, Best(Points(ms), slot, vocab, scores), slot, vocab, scores)
    decreases |ms|
  {
    hide Score, Winner;
    var init, last := ms[..|ms| - 1], ms[|ms| - 1];
    assert init + [last] == ms;
    var rest := Points(init);
    if rest != [] {
      PointsWin(init, slot, vocab, scores);
      var m := Best(rest, slot, vocab, scores);
      if Rivals(last, m) && Beats(last, m, slot, vocab, scores) {
        WinsLast(init, last, m, slot, vocab, scores);
      } else {
        StillWins(init, last, m, slot, vocab, scores);
      }
      assert (rest + [last])[..|rest|] == rest;
    } else {
      PointsAre(init);
      assert Points(ms) == [last];
      WinsAlone(init, last, slot, vocab, scores);
    }
  }

  lemma {:induction false} OperandWins(ms: seq<Mark>, role: Role, slot: string, vocab: seq<Pair>, scores: Scores)
    requires !role.Point? && WithRole(ms, role) != []
    ensures Winner(ms, Best(WithRole(ms, role), slot, vocab, scores), slot, vocab, scores)
    decreases |ms|
  {
    hide Score, Winner;
    var init, last := ms[..|ms| - 1], ms[|ms| - 1];
    assert init + [last] == ms;
    var rest := WithRole(init, role);
    if rest != [] {
      OperandWins(init, role, slot, vocab, scores);
      WithRoleAre(init, role);
      var m := Best(rest, slot, vocab, scores);
      if Rivals(last, m) && Beats(last, m, slot, vocab, scores) {
        WinsLast(init, last, m, slot, vocab, scores);
      } else {
        StillWins(init, last, m, slot, vocab, scores);
      }
      assert (rest + [last])[..|rest|] == rest;
    } else {
      WithRoleAre(init, role);
      assert WithRole(ms, role) == [last];
      WinsAlone(init, last, slot, vocab, scores);
    }
  }

  // ---- what a score is

  /** Without scores the later literal wins. */
  lemma LaterWins(m: Mark, n: Mark, slot: string, vocab: seq<Pair>)
    ensures Beats(m, n, slot, vocab, None) <==> m.lit > n.lit
  {
  }

  /** With scores a mark counts what the table says of its pair at its literal, or nothing. */
  lemma TableScore(m: Mark, slot: string, vocab: seq<Pair>, s: seq<map<nat, real>>, p: nat)
    requires Distinct(vocab) && p < |vocab| && vocab[p] == Pair(slot, m.role)
    ensures Score(m, slot, vocab, Some(s)) == if m.lit < |s| && p in s[m.lit] then s[m.lit][p] else 0.0
  {
    assert IndexOf(vocab, vocab[p]) == p;
  }

  // ---- the marks considered

  lemma {:induction false} PointsAre(ms: seq<Mark>)
    ensures forall m :: m in Points(ms) <==> m in ms && m.role.Point?
    decreases |ms|
  {
    if ms != [] {
      PointsAre(ms[..|ms| - 1]);
    }
  }

  lemma {:induction false} WithRoleAre(ms: seq<Mark>, role: Role)
    ensures forall m :: m in WithRole(ms, role) <==> m in ms && m.role == role
    decreases |ms|
  {
    if ms != [] {
      WithRoleAre(ms[..|ms| - 1], role);
    }
  }

  /** Both operands of a two-literal map are among the marks. */
  ghost predicate Paired(ms: seq<Mark>, op: Binary) {
    (exists m :: m in ms && m.role == OperandA(op)) && (exists m :: m in ms && m.role == OperandB(op))
  }

  ghost predicate OperandOf(m: Mark, op: Binary) {
    m.role == OperandA(op) || m.role == OperandB(op)
  }

  /** The first mark, from `k` on, that is an operand of a map with both operands. */
  ghost predicate FirstPaired(ms: seq<Mark>, k: nat, j: nat, op: Binary) {
    && k <= j < |ms| && OperandOf(ms[j], op) && Paired(ms, op)
    && forall i, o :: k <= i < j && OperandOf(ms[i], o) ==> !Paired(ms, o)
  }

  // ---- the decoded number

  lemma {:induction false} OperandsWin(ms: seq<Mark>, k: nat, lits: seq<Lit>, slot: string, vocab: seq<Pair>,
      scores: Scores)
    returns (j: nat, op: Binary, a: Mark, b: Mark)
    requires k <= |ms| && forall m :: m in ms ==> m.lit < |lits|
    ensures var r := BinaryFromMarks(ms, k, lits, slot, vocab, scores);
      if r.None? then forall i, o :: k <= i < |ms| && OperandOf(ms[i], o) ==> !Paired(ms, o)
      else
        && FirstPaired(ms, k, j, op) && a.role == OperandA(op) && b.role == OperandB(op)
        && Winner(ms, a, slot, vocab, scores) && Winner(ms, b, slot, vocab, scores)
        && r == Some(BinaryValue(op, lits[a.lit].value, lits[b.lit].value))
    decreases |ms| - k
  {
    hide BinaryValue, Score, Best, Winner, WithRole;
    j, op, a, b := 0, Difference, Mark(0, OperandA(Difference)), Mark(0, OperandB(Difference));
    if k < |ms| {
      if ms[k].role.OperandA? || ms[k].role.OperandB? {
        var o := ms[k].role.op;
        var x, y := WithRole(ms, OperandA(o)), WithRole(ms, OperandB(o));
        WithRoleAre(ms, OperandA(o));
        WithRoleAre(ms, OperandB(o));
        PairedLists(ms, o, x, y);
        if x != [] && y != [] {
          OperandWins(ms, OperandA(o), slot, vocab, scores);
          OperandWins(ms, OperandB(o), slot, vocab, scores);
          j, op, a, b := k, o, Best(x, slot, vocab, scores), Best(y, slot, vocab, scores);
        } else {
          j, op, a, b := OperandsWin(ms, k + 1, lits, slot, vocab, scores);
        }
      } else {
        j, op, a, b := OperandsWin(ms, k + 1, lits, slot, vocab, scores);
      }
    }
  }

  lemma PairedLists(ms: seq<Mark>, op: Binary, x: seq<Mark>, y: seq<Mark>)
    requires forall m :: m in x <==> m in ms && m.role == OperandA(op)
    requires forall m :: m in y <==> m in ms && m.role == OperandB(op)
    ensures Paired(ms, op) <==> x != [] && y != []
  {
    if x != [] {
      assert x[0] in x;
    }
    if y != [] {
      assert y[0] in y;
    }
  }

  /** A one-literal pointer beats operands. Among pointers, and among the operands of the first
      two-literal map that has both, the highest score wins, then the later literal. Without
      any of them there is no number. */
  lemma NumberFromWinner(ms: seq<Mark>, lits: seq<Lit>, slot: string, vocab: seq<Pair>, scores: Scores)
    returns (j: nat, op: Binary, a: Mark, b: Mark)
    requires forall m :: m in ms ==> m.lit < |lits|
    ensures var r := ScalarFromMarks(ms, lits, slot, vocab, scores);
      if exists m :: m in ms && m.role.Point? then
        a.role.Point? && Winner(ms, a, slot, vocab, scores) && r == Some(UnaryValue(a.role.m, lits[a.lit].value))
      else if exists o :: Paired(ms, o) then
        && FirstPaired(ms, 0, j, op) && a.role == OperandA(op) && b.role == OperandB(op)
        && Winner(ms, a, slot, vocab, scores) && Winner(ms, b, slot, vocab, scores)
        && r == Some(BinaryValue(op, lits[a.lit].value, lits[b.lit].value))
      else r == None
  {
    hide BinaryValue, UnaryValue, Score, Best, Winner, Points, BinaryFromMarks;
    PointsAre(ms);
    j, op, a, b := OperandsWin(ms, 0, lits, slot, vocab, scores);
    var points := Points(ms);
    if points != [] {
      assert points[0] in points;
      PointsWin(ms, slot, vocab, scores);
      a := Best(points, slot, vocab, scores);
    } else if o :| Paired(ms, o) {
      var m :| m in ms && m.role == OperandA(o);
      var i :| 0 <= i < |ms| && ms[i] == m;
      assert OperandOf(ms[i], o);
    }
  }

  /** The decoder's number for a field is the winner's; without pointers it is the class answer. */
  lemma FieldFromWinner(sch: Schema, op: string, lits: seq<Lit>, ex: Example, scores: Scores, name: string)
    returns (j: nat, map2: Binary, a: Mark, b: Mark)
    requires Usable(sch, op, |lits|, ex) && name in sch.opFields[op] && !sch.kind[name].ArrKind?
    ensures var ms, r := MarksFor(sch, ex, name), DecodeField(sch, op, lits, ex, scores, name);
      && (forall m :: m in ms ==> m.lit < |lits|)
      && if exists m :: m in ms && m.role.Point? then
           && a.role.Point? && Winner(ms, a, name, sch.pairs, scores)
           && r == Number(UnaryValue(a.role.m, lits[a.lit].value))
         else if exists o :: Paired(ms, o) then
           && FirstPaired(ms, 0, j, map2) && a.role == OperandA(map2) && b.role == OperandB(map2)
           && Winner(ms, a, name, sch.pairs, scores) && Winner(ms, b, name, sch.pairs, scores)
           && r == Number(BinaryValue(map2, lits[a.lit].value, lits[b.lit].value))
         else r == OfClass(ClassValue(sch, op, name, ex.conv))
  {
    hide BinaryValue, UnaryValue, SlotMarks, ScalarFromMarks, ClassValue, OfClass;
    SlotMarksInRange(ex.pairs, |ex.pairs|, name, sch.pairs);
    j, map2, a, b := NumberFromWinner(MarksFor(sch, ex, name), lits, name, sch.pairs, scores);
  }

  /** A class answers with the picked value of the field's vocabulary; without a pick a field of one value
      with that one, any other with what its operation mostly says, and none where it says nothing. */
  lemma ClassAnswers(sch: Schema, op: string, name: string, conv: map<string, nat>, c: ClassText)
    requires name in conv && name in sch.convVocab ==> conv[name] < |sch.convVocab[name]|
    ensures var picked, r := name in conv && name in sch.convVocab, ClassValue(sch, op, name, conv);
      && (picked ==> r == Some(sch.convVocab[name][conv[name]]))
      && (!picked && r == Some(c) ==>
            if name in sch.constDefault then c == sch.constDefault[name]
            else op in sch.opDefault && name in sch.opDefault[op] && sch.opDefault[op][name] == c)
      && (r == None ==> name !in sch.constDefault && (op in sch.opDefault ==> name !in sch.opDefault[op]))
    ensures OfClass(None) == Missing
    ensures OfClass(Some(c)) == match c case NumClass(v) => Number(v) case CatClass(t) => Category(t)
  {
  }

  // ---- arrays

  predicate TextOrder(ms: seq<Mark>) {
    forall i, j :: 0 <= i < j < |ms| ==> ms[i].lit <= ms[j].lit
  }

  /** Mark `j` is the last one of its literal. */
  predicate LastOfLiteral(ms: seq<Mark>, j: int) {
    0 <= j < |ms| && forall i :: j < i < |ms| ==> ms[i].lit != ms[j].lit
  }

  /** The group of mark `j`. */
  predicate GroupOf(g: Group, m: Mark) {
    g.lit == m.lit && g.times == match m.role case Repeat(_, n) => n case _ => 1
  }

  predicate Rising(gs: seq<Group>) {
    forall a, b :: 0 <= a < b < |gs| ==> gs[a].lit < gs[b].lit
  }

  ghost predicate Stated(g: Group, ms: seq<Mark>) {
    exists j :: LastOfLiteral(ms, j) && GroupOf(g, ms[j])
  }

  ghost predicate GroupsOf(gs: seq<Group>, ms: seq<Mark>) {
    && Rising(gs) && (forall g <- gs :: Stated(g, ms))
    && forall m <- ms :: exists g <- gs :: g.lit == m.lit
  }

  lemma StatedBefore(g: Group, init: seq<Mark>, last: Mark)
    requires Stated(g, init) && TextOrder(init + [last])
    ensures g.lit <= last.lit
    ensures g.lit != last.lit ==> Stated(g, init + [last])
  {
    var ms := init + [last];
    var j :| LastOfLiteral(init, j) && GroupOf(g, init[j]);
    assert ms[j] == init[j] && ms[|init|] == last;
    if g.lit != last.lit {
      assert LastOfLiteral(ms, j);
    }
  }

  lemma StatedLast(init: seq<Mark>, last: Mark)
    ensures Stated(Group(last.lit, TimesOf(last.role)), init + [last])
  {
    var ms := init + [last];
    assert LastOfLiteral(ms, |init|) && ms[|init|] == last;
  }

  /** The groups with one mark more: its own comes last, in place of one of the same literal. */
  lemma GroupsMore(init: seq<Mark>, last: Mark, kept: seq<Group>, before: seq<Group>)
    requires TextOrder(init + [last]) && GroupsOf(before, init) && kept <= before && |before| <= |kept| + 1
    requires if kept == before then before == [] || before[|before| - 1].lit != last.lit
             else before[|before| - 1].lit == last.lit
    ensures GroupsOf(kept + [Group(last.lit, TimesOf(last.role))], init + [last])
  {
    hide Stated, TextOrder;
    var ms, g := init + [last], Group(last.lit, TimesOf(last.role));
    var gs := kept + [g];
    forall h | h in before ensures h.lit <= last.lit {
      StatedBefore(h, init, last);
    }
    BelowLast(kept, before, last);
    StatedLast(init, last);
    forall h | h in gs ensures Stated(h, ms) {
      if h != g {
        StatedBefore(h, init, last);
      }
    }
    forall m | m in ms ensures exists h <- gs :: h.lit == m.lit {
      if m.lit == last.lit {
        assert g in gs;
      } else {
        var h :| h in before && h.lit == m.lit;
        assert h in kept;
        assert h in gs;
      }
    }
  }

  lemma BelowLast(kept: seq<Group>, before: seq<Group>, last: Mark)
    requires Rising(before) && kept <= before && |before| <= |kept| + 1 && forall h :: h in before ==> h.lit <= last.lit
    requires if kept == before then before == [] || before[|before| - 1].lit != last.lit
             else before[|before| - 1].lit == last.lit
    ensures forall h :: h in kept ==> h.lit < last.lit
    ensures forall h :: h in before && h.lit != last.lit ==> h in kept
  {
    forall a | 0 <= a < |kept| ensures kept[a].lit < last.lit {
      assert kept[a] == before[a] && before[a] in before && before[|before| - 1] in before;
    }
    if kept != before {
      assert before == kept + [before[|before| - 1]];
    }
  }

  /** The groups of an array are its literals in text order, each once, even when it has several
      marks; the last of them says how often it counts. */
  lemma {:induction false} GroupsAre(ms: seq<Mark>)
    requires TextOrder(ms)
    ensures GroupsOf(Groups(ms), ms)
    decreases |ms|
  {
    hide GroupsOf, TimesOf;
    if ms == [] {
      NoGroups();
    } else {
      var init, last := ms[..|ms| - 1], ms[|ms| - 1];
      assert init + [last] == ms;
      GroupsAre(init);
      var before := Groups(init);
      if before != [] && before[|before| - 1].lit == last.lit {
        GroupsMore(init, last, before[..|before| - 1], before);
      } else {
        GroupsMore(init, last, before, before);
      }
    }
  }

  lemma NoGroups()
    ensures GroupsOf([], [])
  {
  }

  /** A window keeps exactly the marks whose literals lie in it. */
  lemma {:induction false} WindowAre(ms: seq<Mark>, lo: int, hi: int)
    ensures forall m :: m in Window(ms, lo, hi) <==> m in ms && lo <= m.lit < hi
    decreases |ms|
  {
    if ms != [] {
      WindowAre(ms[..|ms| - 1], lo, hi);
    }
  }

  // ---- probabilities

  lemma {:induction false} IdAt(ids: seq<nat>, li: nat, slot: string, vocab: seq<Pair>, m: Mark) returns (p: nat)
    requires (forall k :: 0 <= k < |ids| ==> ids[k] < |vocab|) && m in IdsAt(ids, li, slot, vocab)
    ensures p in ids && vocab[p] == Pair(slot, m.role) && m.lit == li
  {
    var init, last := ids[..|ids| - 1], ids[|ids| - 1];
    if m in IdsAt(init, li, slot, vocab) {
      p := IdAt(init, li, slot, vocab, m);
    } else {
      p := last;
    }
  }

  lemma {:induction false} IdOf(pairs: seq<seq<nat>>, n: nat, slot: string, vocab: seq<Pair>, m: Mark) returns (p: nat)
    requires n <= |pairs| && IdsOk(pairs, vocab) && m in SlotMarks(pairs, n, slot, vocab)
    ensures m.lit < n && p in pairs[m.lit] && p < |vocab| && vocab[p] == Pair(slot, m.role)
    decreases n
  {
    hide IdsAt;
    if m in SlotMarks(pairs, n - 1, slot, vocab) {
      p := IdOf(pairs, n - 1, slot, vocab, m);
    } else {
      p := IdAt(pairs[n - 1], n - 1, slot, vocab, m);
    }
  }

  /** With a prediction's own scores a mark counts the probability of its pair at its literal. */
  lemma ProbabilityCounts(sch: Schema, pairs: seq<seq<nat>>, pred: Masks.Prediction, probs: seq<map<nat, real>>,
      slot: string, m: Mark)
    returns (p: nat)
    requires Distinct(sch.pairs) && IdsOk(pairs, sch.pairs) && Masks.SelectedScores(probs, pairs, pred)
    requires m in SlotMarks(pairs, |pairs|, slot, sch.pairs)
    ensures p < |sch.pairs| && sch.pairs[p] == Pair(slot, m.role)
    ensures m.lit < |pred.pair| && p < |pred.pair[m.lit]|
    ensures Score(m, slot, sch.pairs, Some(probs)) == pred.pair[m.lit][p]
  {
    hide SlotMarks, Score;
    p := IdOf(pairs, |pairs|, slot, sch.pairs, m);
    assert Masks.ScoresOf(probs[m.lit], pairs[m.lit], pred.pair[m.lit]);
    TableScore(m, slot, sch.pairs, probs, p);
  }
}
