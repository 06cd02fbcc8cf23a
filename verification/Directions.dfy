/** One direction per neighbor: edges that name the same neighbor are compared by the strength
    of their source, remembering one earlier edge per neighbor. */
module Directions {

  /** What matters about an edge here: whose it is, whether it points upstream, and how strong
      its source is. */
  datatype Mark = Mark(key: string, up: bool, prio: int)

  /** Two edges that point opposite ways: the remembered one and the one being looked at. */
  datatype Clash = Clash(previous: nat, index: nat)

  datatype Verdict =
    | Failed(clash: Clash)
    | Going(byMAC: map<string, nat>, keep: seq<bool>, clashes: seq<Clash>)

  /** After looking at one more edge. */
  function Look(marks: seq<Mark>, v: Verdict, index: nat): Verdict
    requires index < |marks|
    requires v.Going? ==> |v.keep| == |marks| && forall k <- v.byMAC :: v.byMAC[k] < |marks|
  {
    var m := marks[index];
    if v.Failed? then v
    else if m.key !in v.byMAC then v.(byMAC := v.byMAC[m.key := index])
    else
      var previous := v.byMAC[m.key];
      var p := marks[previous];
      if p.up == m.up then v
      else if p.prio == m.prio && p.prio > 1 then Failed(Clash(previous, index))
      else
        var more := v.clashes + [Clash(previous, index)];
        if p.prio == m.prio then v.(keep := v.keep[previous := false][index := false], clashes := more)
        else if p.prio > m.prio then v.(keep := v.keep[index := false], clashes := more)
        else Going(v.byMAC[m.key := index], v.keep[previous := false], more)
  }

  function Judged(marks: seq<Mark>, n: nat): (v: Verdict)
    requires n <= |marks|
    ensures v.Going? ==> |v.keep| == |marks| && forall k <- v.byMAC :: v.byMAC[k] < |marks|
    ensures v.Going? ==> forall c <- v.clashes :: c.previous < |marks| && c.index < |marks|
    ensures v.Failed? ==> v.clash.previous < |marks| && v.clash.index < |marks|
  {
    if n == 0 then Going(map[], seq(|marks|, _ => true), [])
    else Look(marks, Judged(marks, n - 1), n - 1)
  }

  // ---- without any hypothesis ----

  /** No neighbor is seen both ways among the first edges. */
  ghost predicate OneWay(marks: seq<Mark>, n: nat)
    requires n <= |marks|
  {
    forall i, j :: 0 <= i < n && 0 <= j < n && marks[i].key == marks[j].key ==> marks[i].up == marks[j].up
  }

  /** The remembered edges are earlier edges of that neighbor, one for each neighbor seen. */
  ghost predicate Remembers(marks: seq<Mark>, n: nat, byMAC: map<string, nat>)
    requires n <= |marks|
  {
    && (forall k <- byMAC :: byMAC[k] < n && marks[byMAC[k]].key == k)
    && (forall i :: 0 <= i < n ==> marks[i].key in byMAC)
  }

  lemma {:induction false} AlwaysRemembers(marks: seq<Mark>, n: nat)
    requires n <= |marks|
    ensures Judged(marks, n).Going? ==> Remembers(marks, n, Judged(marks, n).byMAC)
  {
    if n > 0 {
      AlwaysRemembers(marks, n - 1);
    }
  }

  lemma OneWayStep(marks: seq<Mark>, n: nat, byMAC: map<string, nat>)
    requires n < |marks| && OneWay(marks, n) && Remembers(marks, n, byMAC)
    ensures OneWay(marks, n + 1) <==> (marks[n].key in byMAC ==> marks[byMAC[marks[n].key]].up == marks[n].up)
  {
    if marks[n].key in byMAC {
      var p := byMAC[marks[n].key];
      assert OneWay(marks, n + 1) ==> marks[p].up == marks[n].up;
    }
  }

  lemma NotOneWay(marks: seq<Mark>, n: nat)
    requires n < |marks| && !OneWay(marks, n)
    ensures !OneWay(marks, n + 1)
  {
  }

  /** No error and no warning exactly when no neighbor is seen both ways; and then every edge
      is kept. */
  lemma {:induction false} QuietIff(marks: seq<Mark>, n: nat)
    requires n <= |marks|
    ensures var v := Judged(marks, n);
            && (v.Going? && v.clashes == [] <==> OneWay(marks, n))
            && (v.Going? && v.clashes == [] ==> forall i :: 0 <= i < |marks| ==> v.keep[i])
  {
    if n > 0 {
      hide OneWay, Remembers;
      QuietIff(marks, n - 1);
      AlwaysRemembers(marks, n - 1);
      var before := Judged(marks, n - 1);
      if before.Going? && before.clashes == [] {
        OneWayStep(marks, n - 1, before.byMAC);
      } else {
        NotOneWay(marks, n - 1);
      }
    }
  }

  /** Two edges of one neighbor that point opposite ways, the earlier one first. */
  ghost predicate Clashing(marks: seq<Mark>, c: Clash) {
    && c.previous < c.index < |marks|
    && marks[c.previous].key == marks[c.index].key && marks[c.previous].up != marks[c.index].up
  }

  /** An edge does not win a clash it is in. */
  ghost predicate Loses(marks: seq<Mark>, i: nat, c: Clash)
    requires c.previous < |marks| && c.index < |marks|
  {
    || (i == c.previous && marks[c.index].prio >= marks[c.previous].prio)
    || (i == c.index && marks[c.previous].prio >= marks[c.index].prio)
  }

  /** An edge is dropped exactly when it fails to win a clash. */
  ghost predicate Dropped(marks: seq<Mark>, keep: seq<bool>, clashes: seq<Clash>)
    requires |keep| == |marks| && forall c <- clashes :: c.previous < |marks| && c.index < |marks|
  {
    forall i :: 0 <= i < |marks| ==> (!keep[i] <==> exists c :: c in clashes && Loses(marks, i, c))
  }

  lemma DropMore(marks: seq<Mark>, keep: seq<bool>, clashes: seq<Clash>, after: seq<bool>, c: Clash)
    requires |keep| == |after| == |marks| && forall x <- clashes + [c] :: x.previous < |marks| && x.index < |marks|
    requires (forall x <- clashes :: x.previous < |marks| && x.index < |marks|) && Dropped(marks, keep, clashes)
    requires c.previous < |marks| && c.index < |marks|
    requires forall i :: 0 <= i < |marks| ==> (after[i] <==> keep[i] && !Loses(marks, i, c))
    ensures Dropped(marks, after, clashes + [c])
  {
    hide Loses;
    assert forall x :: x in clashes + [c] <==> x in clashes || x == c;
  }

  /** The clashes noted so far are clashes, but not of the kind that fails. */
  ghost predicate Noted(marks: seq<Mark>, n: nat, clashes: seq<Clash>) {
    forall c <- clashes :: Clashing(marks, c) && c.index < n && !(marks[c.previous].prio == marks[c.index].prio > 1)
  }

  lemma NoteMore(marks: seq<Mark>, n: nat, clashes: seq<Clash>, c: Clash)
    requires Noted(marks, n, clashes) && Clashing(marks, c) && c.index == n
    requires !(marks[c.previous].prio == marks[c.index].prio > 1)
    ensures Noted(marks, n + 1, clashes + [c])
  {
    hide Clashing;
  }

  lemma LookClashes(marks: seq<Mark>, n: nat, v: Verdict)
    requires n < |marks| && v.Going? && |v.keep| == |marks| && Remembers(marks, n, v.byMAC)
    requires Noted(marks, n, v.clashes) && (forall c <- v.clashes :: c.previous < |marks| && c.index < |marks|)
    requires Dropped(marks, v.keep, v.clashes)
    ensures var after := Look(marks, v, n);
            if after.Failed? then
              Clashing(marks, after.clash) && after.clash.index == n && marks[after.clash.previous].prio == marks[n].prio > 1
            else
              && Noted(marks, n + 1, after.clashes) && |after.keep| == |marks|
              && (forall c <- after.clashes :: c.previous < |marks| && c.index < |marks|)
              && Dropped(marks, after.keep, after.clashes)
  {
    var after := Look(marks, v, n);
    if after.Going? && after.clashes != v.clashes {
      var c := Clash(v.byMAC[marks[n].key], n);
      assert after.clashes == v.clashes + [c];
      assert Clashing(marks, c);
      NoteMore(marks, n, v.clashes, c);
      DropMore(marks, v.keep, v.clashes, after.keep, c);
    }
    hide Dropped;
  }

  /** The walk fails at two clashing edges of equal strength above LLDP's. While it goes on, the
      clashes it notes are clashes but not of that kind, and an edge is dropped exactly when it
      fails to win one of them. */
  lemma {:induction false} ClashesAre(marks: seq<Mark>, n: nat)
    requires n <= |marks|
    ensures var v := Judged(marks, n);
            if v.Failed? then
              Clashing(marks, v.clash) && v.clash.index < n && marks[v.clash.previous].prio == marks[v.clash.index].prio > 1
            else Noted(marks, n, v.clashes) && Dropped(marks, v.keep, v.clashes)
  {
    if n > 0 {
      ClashesAre(marks, n - 1);
      AlwaysRemembers(marks, n - 1);
      hide Noted, Dropped, Clashing, Remembers;
      if Judged(marks, n - 1).Going? {
        LookClashes(marks, n - 1, Judged(marks, n - 1));
      }
      hide Look;
    }
  }

  // ---- one upstream edge per neighbor ----

  /** What a list with a single uplink port guarantees. */
  ghost predicate OneUp(marks: seq<Mark>) {
    forall i, j :: 0 <= i < |marks| && 0 <= j < |marks| && marks[i].up && marks[j].up && marks[i].key == marks[j].key ==> i == j
  }

  ghost predicate IsFirst(marks: seq<Mark>, f: int) {
    0 <= f < |marks| && forall i :: 0 <= i < f ==> marks[i].key != marks[f].key
  }

  /** The upstream edge is stronger than the neighbor's first edge, or is that edge. */
  ghost predicate Leads(marks: seq<Mark>, u: int) {
    0 <= u < |marks| && forall f :: IsFirst(marks, f) && f < u && marks[f].key == marks[u].key ==> marks[f].prio < marks[u].prio
  }

  /** Some edge after u and before n of the same neighbor is stronger. */
  ghost predicate Overtaken(marks: seq<Mark>, u: int, n: int) {
    exists s :: 0 <= u < s < n <= |marks| && marks[s].key == marks[u].key && marks[s].prio > marks[u].prio
  }

  /** Some edge after u and before n of the same neighbor is at least as strong. */
  ghost predicate Matched(marks: seq<Mark>, u: int, n: int) {
    exists s :: 0 <= u < s < n <= |marks| && marks[s].key == marks[u].key && marks[s].prio >= marks[u].prio
  }

  /** Which downstream edges stay beside the upstream edge u of the same neighbor: the first
      one if it is stronger, any other one before u, and those after u once u has lost. */
  ghost predicate StaysDown(marks: seq<Mark>, u: int, t: int)
    requires 0 <= u < |marks| && 0 <= t < |marks|
  {
    if t < u then IsFirst(marks, t) ==> marks[t].prio > marks[u].prio
    else !Leads(marks, u) || Overtaken(marks, u, t + 1)
  }

  ghost predicate Stays(marks: seq<Mark>, i: int, n: int)
    requires 0 <= i < n <= |marks|
  {
    if marks[i].up then Leads(marks, i) && !Matched(marks, i, n)
    else forall u :: 0 <= u < n && marks[u].up && marks[u].key == marks[i].key ==> StaysDown(marks, u, i)
  }

  /** The strongest sources contradict each other. */
  ghost predicate Contradicts(marks: seq<Mark>, u: int, t: int) {
    && 0 <= u < |marks| && 0 <= t < |marks| && marks[u].up && !marks[t].up && marks[u].key == marks[t].key
    && marks[u].prio == marks[t].prio == 2
    && (t < u ==> IsFirst(marks, t))
  }

  ghost predicate Contradicted(marks: seq<Mark>, n: int) {
    exists u, t :: u < n && t < n && Contradicts(marks, u, t)
  }

  /** An upstream edge of this neighbor leads and nothing later has overtaken it. */
  ghost predicate HasLead(marks: seq<Mark>, n: nat, k: string)
    requires n <= |marks|
  {
    exists u :: 0 <= u < n && marks[u].up && marks[u].key == k && Leads(marks, u) && !Overtaken(marks, u, n)
  }

  ghost predicate NoUp(marks: seq<Mark>, n: nat, k: string)
    requires n <= |marks|
  {
    forall u :: 0 <= u < n && marks[u].up ==> marks[u].key != k
  }

  ghost predicate AheadAt(marks: seq<Mark>, n: nat, k: string, at: nat)
    requires n <= |marks| && at < |marks|
  {
    (marks[at].up <==> HasLead(marks, n, k)) && (NoUp(marks, n, k) ==> IsFirst(marks, at))
  }

  /** The remembered edge of a neighbor points upstream exactly while its upstream edge is ahead;
      while there is no upstream edge it is the neighbor's first. */
  ghost predicate Ahead(marks: seq<Mark>, n: nat, byMAC: map<string, nat>)
    requires n <= |marks| && Remembers(marks, n, byMAC)
  {
    forall k <- byMAC :: AheadAt(marks, n, k, byMAC[k])
  }

  ghost predicate Exact(marks: seq<Mark>, n: nat, v: Verdict)
    requires n <= |marks|
  {
    v.Going? && |v.keep| == |marks| && Remembers(marks, n, v.byMAC) && Ahead(marks, n, v.byMAC)
    && (forall i :: 0 <= i < n ==> (v.keep[i] <==> Stays(marks, i, n)))
    && (forall i :: n <= i < |marks| ==> v.keep[i])
  }

  // ---- one more edge ----

  ghost predicate Same(marks: seq<Mark>, i: int, j: int)
    requires 0 <= i < |marks| && 0 <= j < |marks|
  {
    marks[i].key == marks[j].key
  }

  lemma OvertakenStep(marks: seq<Mark>, n: nat, u: nat)
    requires u <= n < |marks|
    ensures Overtaken(marks, u, n + 1) <==> Overtaken(marks, u, n) || (u < n && Same(marks, u, n) && marks[n].prio > marks[u].prio)
    ensures Matched(marks, u, n + 1) <==> Matched(marks, u, n) || (u < n && Same(marks, u, n) && marks[n].prio >= marks[u].prio)
    ensures Overtaken(marks, u, n) ==> Matched(marks, u, n) && u < n
    ensures Matched(marks, u, n) ==> u < n
  {
  }

  /** How a new edge changes who stays. */
  lemma StaysStep(marks: seq<Mark>, n: nat, j: nat)
    requires j < n < |marks|
    ensures marks[j].up ==> (Stays(marks, j, n + 1) <==> Stays(marks, j, n) && !(Same(marks, j, n) && marks[n].prio >= marks[j].prio))
    ensures !marks[j].up ==>
              (Stays(marks, j, n + 1) <==> Stays(marks, j, n) && (marks[n].up && Same(marks, j, n) ==> StaysDown(marks, n, j)))
  {
    hide Overtaken, Matched, Leads, StaysDown;
    OvertakenStep(marks, n, j);
  }

  lemma StaysNew(marks: seq<Mark>, n: nat)
    requires n < |marks|
    ensures marks[n].up ==> (Stays(marks, n, n + 1) <==> Leads(marks, n))
    ensures !marks[n].up ==>
              (Stays(marks, n, n + 1) <==>
               forall u :: 0 <= u < n && marks[u].up && Same(marks, u, n) ==> !Leads(marks, u) || Overtaken(marks, u, n + 1))
  {
    hide Overtaken, Leads;
    OvertakenStep(marks, n, n);
  }

  /** An upstream edge of the strongest kind that does not lead contradicts the first edge. */
  lemma StrongButBehind(marks: seq<Mark>, u: nat, n: nat)
    requires u < n <= |marks| && OneUp(marks) && forall m <- marks :: m.prio <= 2
    requires marks[u].up && marks[u].prio == 2 && !Leads(marks, u)
    ensures Contradicted(marks, n)
  {
    var f :| IsFirst(marks, f) && f < u && marks[f].key == marks[u].key && marks[f].prio >= marks[u].prio;
    assert marks[f] in marks;
    assert Contradicts(marks, u, f);
  }

  lemma NeverOvertaken(marks: seq<Mark>, u: nat, n: nat)
    requires u < |marks| && marks[u].prio == 2 && forall m <- marks :: m.prio <= 2
    ensures !Overtaken(marks, u, n)
  {
    forall s | 0 <= s < |marks|
      ensures marks[s].prio <= 2
    {
      assert marks[s] in marks;
    }
  }

  /** What the invariant says of the edge looked at next. */
  ghost predicate Before(marks: seq<Mark>, n: nat, v: Verdict) {
    n < |marks| && OneUp(marks) && (forall m <- marks :: m.prio <= 2) && Exact(marks, n, v) && !Contradicted(marks, n)
  }

  ghost predicate After(marks: seq<Mark>, n: nat, v: Verdict)
    requires n < |marks|
    requires v.Going? ==> |v.keep| == |marks| && forall k <- v.byMAC :: v.byMAC[k] < |marks|
  {
    var next := Look(marks, v, n);
    (next.Failed? <==> Contradicted(marks, n + 1)) && (next.Going? ==> Exact(marks, n + 1, next))
  }

  /** A new contradiction must involve the new edge. */
  lemma NewContradiction(marks: seq<Mark>, n: nat)
    requires n < |marks| && !Contradicted(marks, n)
    ensures Contradicted(marks, n + 1) <==> exists j :: 0 <= j < n && (Contradicts(marks, j, n) || Contradicts(marks, n, j))
  {
    hide Contradicts;
    if u, t :| u < n + 1 && t < n + 1 && Contradicts(marks, u, t) {
      assert u != t by { NotBoth(marks, u); }
      InRange(marks, u, t);
    }
  }

  lemma NotBoth(marks: seq<Mark>, u: int)
    ensures !Contradicts(marks, u, u)
  {
  }

  lemma InRange(marks: seq<Mark>, u: int, t: int)
    requires Contradicts(marks, u, t)
    ensures 0 <= u < |marks| && 0 <= t < |marks|
  {
  }

  lemma OtherKey(marks: seq<Mark>, n: nat, k: string)
    requires n < |marks| && marks[n].key != k
    ensures HasLead(marks, n + 1, k) <==> HasLead(marks, n, k)
    ensures NoUp(marks, n + 1, k) <==> NoUp(marks, n, k)
  {
    hide Overtaken, Matched, Leads;
    forall u: nat | u < n && marks[u].key == k
      ensures Overtaken(marks, u, n + 1) <==> Overtaken(marks, u, n)
    {
      OvertakenStep(marks, n, u);
    }
  }

  /** Once the edges that stay and the remembered edge of this neighbor are right, so is all. */
  lemma Assembled(marks: seq<Mark>, n: nat, v: Verdict)
    requires Before(marks, n, v) && Look(marks, v, n).Going?
    requires forall j :: 0 <= j <= n ==> (Look(marks, v, n).keep[j] <==> Stays(marks, j, n + 1))
    requires marks[n].key in Look(marks, v, n).byMAC
    requires AheadAt(marks, n + 1, marks[n].key, Look(marks, v, n).byMAC[marks[n].key])
    ensures Exact(marks, n + 1, Look(marks, v, n))
  {
    hide Stays, HasLead, NoUp, IsFirst, OneUp;
    var next := Look(marks, v, n);
    assert Remembers(marks, n + 1, next.byMAC);
    forall k | k in next.byMAC
      ensures AheadAt(marks, n + 1, k, next.byMAC[k])
    {
      if k != marks[n].key {
        OtherKey(marks, n, k);
        assert AheadAt(marks, n, k, v.byMAC[k]);
      }
    }
  }

  lemma NewNeighbor(marks: seq<Mark>, n: nat, v: Verdict)
    requires Before(marks, n, v) && marks[n].key !in v.byMAC
    ensures After(marks, n, v)
  {
    hide Overtaken, Matched, Stays, OneUp;
    assert forall j :: 0 <= j < n ==> marks[j].key != marks[n].key;
    NewContradiction(marks, n);
    forall j | 0 <= j < n
      ensures Stays(marks, j, n + 1) <==> Stays(marks, j, n)
    {
      StaysStep(marks, n, j);
    }
    StaysNew(marks, n);
    OvertakenStep(marks, n, n);
    assert IsFirst(marks, n) && Leads(marks, n);
    Assembled(marks, n, v);
  }

  /** The remembered edge and what the invariant says of it. */
  lemma Remembered(marks: seq<Mark>, n: nat, v: Verdict)
    requires Before(marks, n, v) && marks[n].key in v.byMAC
    ensures var p := v.byMAC[marks[n].key]; p < n && Same(marks, p, n) && AheadAt(marks, n, marks[n].key, p)
    ensures marks[n].up ==> NoUp(marks, n, marks[n].key)
    ensures forall u, t :: 0 <= u < n && 0 <= t < n && marks[u].up && marks[t].up && Same(marks, u, n) && Same(marks, t, n) ==> u == t
  {
    hide AheadAt, Stays;
  }

  lemma SameDirection(marks: seq<Mark>, n: nat, v: Verdict)
    requires Before(marks, n, v) && marks[n].key in v.byMAC && marks[v.byMAC[marks[n].key]].up == marks[n].up
    ensures After(marks, n, v)
  {
    hide Overtaken, Matched, Leads, IsFirst, Contradicts, Contradicted, OneUp, StaysDown, Stays;
    Remembered(marks, n, v);
    var p := v.byMAC[marks[n].key];
    assert !marks[n].up;
    assert !HasLead(marks, n, marks[n].key);
    forall u: nat | u < n && marks[u].up && Same(marks, u, n)
      ensures (!Leads(marks, u) || Overtaken(marks, u, n)) && (!Leads(marks, u) || Overtaken(marks, u, n + 1))
    {
      OvertakenStep(marks, n, u);
    }
    StaysNew(marks, n);
    forall j: nat | j < n
      ensures Stays(marks, j, n + 1) <==> Stays(marks, j, n)
    {
      StaysStep(marks, n, j);
      if marks[j].up && Same(marks, j, n) {
        BehindStaysOut(marks, j, n);
      }
    }
    assert !HasLead(marks, n + 1, marks[n].key);
    NoUpStep(marks, n);
    Assembled(marks, n, v);
    NoNewContradiction(marks, n);
  }

  lemma NoUpStep(marks: seq<Mark>, n: nat)
    requires n < |marks| && !marks[n].up
    ensures NoUp(marks, n + 1, marks[n].key) <==> NoUp(marks, n, marks[n].key)
  {
  }

  lemma BehindStaysOut(marks: seq<Mark>, u: nat, n: nat)
    requires u < n <= |marks| && marks[u].up && (!Leads(marks, u) || Overtaken(marks, u, n))
    ensures !Stays(marks, u, n)
  {
    hide Leads;
  }

  /** A downstream edge adds no contradiction when its neighbor's upstream edge is not ahead. */
  lemma NoNewContradiction(marks: seq<Mark>, n: nat)
    requires n < |marks| && OneUp(marks) && (forall m <- marks :: m.prio <= 2) && !Contradicted(marks, n) && !marks[n].up
    requires !HasLead(marks, n, marks[n].key)
    ensures !Contradicted(marks, n + 1)
  {
    hide Leads, Overtaken, Contradicted;
    NewContradiction(marks, n);
    forall u | 0 <= u < n
      ensures !Contradicts(marks, u, n) && !Contradicts(marks, n, u)
    {
      if Contradicts(marks, u, n) {
        if Leads(marks, u) {
          NeverOvertaken(marks, u, n);
        } else {
          StrongButBehind(marks, u, n);
        }
      }
    }
  }

  lemma DownAfterUp(marks: seq<Mark>, n: nat, v: Verdict)
    requires Before(marks, n, v) && marks[n].key in v.byMAC && marks[v.byMAC[marks[n].key]].up && !marks[n].up
    ensures After(marks, n, v)
  {
    hide Overtaken, Matched, Leads, IsFirst, Contradicted, OneUp, StaysDown, Stays;
    Remembered(marks, n, v);
    var p := v.byMAC[marks[n].key];
    assert Leads(marks, p) && !Overtaken(marks, p, n);
    OvertakenStep(marks, n, p);
    StaysNew(marks, n);
    forall j: nat | j < n
      ensures Stays(marks, j, n + 1) <==> Stays(marks, j, n) && !(j == p && marks[n].prio >= marks[p].prio)
    {
      StaysStep(marks, n, j);
    }
    assert Stays(marks, n, n + 1) <==> marks[n].prio > marks[p].prio;
    assert HasLead(marks, n + 1, marks[n].key) <==> marks[n].prio <= marks[p].prio by { LeadStep(marks, n, p); }
    assert !NoUp(marks, n + 1, marks[n].key);
    NewContradiction(marks, n);
    DownContradicts(marks, n, p);
    var next := Look(marks, v, n);
    if next.Going? {
      assert marks[next.byMAC[marks[n].key]].up <==> marks[n].prio <= marks[p].prio;
      assert AheadAt(marks, n + 1, marks[n].key, next.byMAC[marks[n].key]);
      forall j | 0 <= j <= n
        ensures next.keep[j] <==> Stays(marks, j, n + 1)
      {
        if j < n {
          assert v.keep[j] <==> Stays(marks, j, n);
        } else {
          assert v.keep[n];
        }
      }
      Assembled(marks, n, v);
    }
  }

  lemma LeadStep(marks: seq<Mark>, n: nat, p: nat)
    requires p < n < |marks| && Same(marks, p, n) && marks[p].up && !marks[n].up && Leads(marks, p) && !Overtaken(marks, p, n)
    requires forall u :: 0 <= u < n && marks[u].up && Same(marks, u, n) ==> u == p
    ensures HasLead(marks, n + 1, marks[n].key) <==> marks[n].prio <= marks[p].prio
  {
    hide Overtaken, Leads;
    OvertakenStep(marks, n, p);
  }

  lemma DownContradicts(marks: seq<Mark>, n: nat, p: nat)
    requires p < n < |marks| && Same(marks, p, n) && marks[p].up && !marks[n].up
    requires forall m <- marks :: m.prio <= 2
    requires forall u :: 0 <= u < n && marks[u].up && Same(marks, u, n) ==> u == p
    ensures (exists j :: 0 <= j < n && (Contradicts(marks, j, n) || Contradicts(marks, n, j))) <==> marks[p].prio == marks[n].prio > 1
  {
    assert marks[p] in marks;
    if marks[p].prio == marks[n].prio > 1 {
      assert Contradicts(marks, p, n);
    }
  }

  lemma UpAfterDown(marks: seq<Mark>, n: nat, v: Verdict)
    requires Before(marks, n, v) && marks[n].key in v.byMAC && !marks[v.byMAC[marks[n].key]].up && marks[n].up
    ensures After(marks, n, v)
  {
    hide Overtaken, Matched, Leads, IsFirst, Contradicted, OneUp, Stays;
    Remembered(marks, n, v);
    var p := v.byMAC[marks[n].key];
    assert IsFirst(marks, p);
    AfterFirst(marks, n, p);
    StaysNew(marks, n);
    forall j: nat | j < n
      ensures Stays(marks, j, n + 1) <==> Stays(marks, j, n) && !(j == p && marks[p].prio <= marks[n].prio)
    {
      StaysStep(marks, n, j);
      assert Same(marks, j, n) ==> !marks[j].up;
    }
    OvertakenStep(marks, n, n);
    assert HasLead(marks, n + 1, marks[n].key) <==> marks[p].prio < marks[n].prio by { UpLeads(marks, n); }
    assert !NoUp(marks, n + 1, marks[n].key);
    NewContradiction(marks, n);
    UpContradicts(marks, n, p);
    var next := Look(marks, v, n);
    if next.Going? {
      assert marks[next.byMAC[marks[n].key]].up <==> marks[p].prio < marks[n].prio;
      assert AheadAt(marks, n + 1, marks[n].key, next.byMAC[marks[n].key]);
      Assembled(marks, n, v);
    }
  }

  lemma UpLeads(marks: seq<Mark>, n: nat)
    requires n < |marks| && marks[n].up && NoUp(marks, n, marks[n].key)
    ensures HasLead(marks, n + 1, marks[n].key) <==> Leads(marks, n)
  {
    hide Overtaken, Leads;
    OvertakenStep(marks, n, n);
  }

  lemma AfterFirst(marks: seq<Mark>, n: nat, p: nat)
    requires p < n < |marks| && Same(marks, p, n) && IsFirst(marks, p)
    ensures Leads(marks, n) <==> marks[p].prio < marks[n].prio
    ensures forall j :: 0 <= j < n && Same(marks, j, n) && IsFirst(marks, j) ==> j == p
  {
  }

  lemma UpContradicts(marks: seq<Mark>, n: nat, p: nat)
    requires p < n < |marks| && Same(marks, p, n) && !marks[p].up && marks[n].up && IsFirst(marks, p)
    requires NoUp(marks, n, marks[n].key) && forall m <- marks :: m.prio <= 2
    ensures (exists j :: 0 <= j < n && (Contradicts(marks, j, n) || Contradicts(marks, n, j))) <==> marks[p].prio == marks[n].prio > 1
  {
    assert marks[p] in marks;
    AfterFirst(marks, n, p);
    if marks[p].prio == marks[n].prio > 1 {
      assert Contradicts(marks, n, p);
    }
  }

  /** With one upstream edge per neighbor the outcome of the walk is known in closed form. */
  lemma {:induction false} VerdictIs(marks: seq<Mark>, n: nat)
    requires n <= |marks| && OneUp(marks) && forall m <- marks :: m.prio <= 2
    ensures Judged(marks, n).Failed? <==> Contradicted(marks, n)
    ensures Judged(marks, n).Going? ==> Exact(marks, n, Judged(marks, n))
  {
    hide Exact, Contradicted, OneUp, Look;
    if n == 0 {
      NothingSeen(marks);
    } else {
      VerdictIs(marks, n - 1);
      var v := Judged(marks, n - 1);
      if v.Going? {
        StillExact(marks, n - 1, v);
      } else {
        StillContradicted(marks, n);
      }
    }
  }

  lemma NothingSeen(marks: seq<Mark>)
    ensures !Contradicted(marks, 0) && Exact(marks, 0, Judged(marks, 0))
  {
  }

  lemma StillContradicted(marks: seq<Mark>, n: nat)
    requires 0 < n <= |marks| && Contradicted(marks, n - 1)
    ensures Contradicted(marks, n) && Judged(marks, n - 1).Failed? ==> Judged(marks, n).Failed?
    ensures Contradicted(marks, n)
  {
  }

  lemma StillExact(marks: seq<Mark>, n: nat, v: Verdict)
    requires Before(marks, n, v)
    ensures After(marks, n, v)
  {
    hide After;
    if marks[n].key !in v.byMAC {
      NewNeighbor(marks, n, v);
    } else if marks[v.byMAC[marks[n].key]].up == marks[n].up {
      SameDirection(marks, n, v);
    } else if marks[n].up {
      UpAfterDown(marks, n, v);
    } else {
      DownAfterUp(marks, n, v);
    }
  }

  // ---- what survives ----

  /** Two kept edges of one neighbor that point opposite ways. */
  ghost predicate Disagree(marks: seq<Mark>, keep: seq<bool>)
    requires |keep| == |marks|
  {
    exists u, t :: 0 <= u < |marks| && 0 <= t < |marks| && keep[u] && keep[t] && Same(marks, u, t) && marks[u].up && !marks[t].up
  }

  /** A downstream edge the walk has already forgotten when the upstream edge comes and wins. */
  ghost predicate Forgotten(marks: seq<Mark>, u: int, t: int) {
    && 0 <= t < u < |marks| && Same(marks, u, t) && marks[u].up && !marks[t].up
    && !IsFirst(marks, t) && Stays(marks, u, |marks|)
  }

  /** With one upstream edge per neighbor the walk errs exactly on a contradiction of the
      strongest sources, and otherwise the kept edges of every neighbor share one direction
      except when an upstream edge wins after two downstream ones, the second of which was
      never compared with it. */
  lemma DisagreeIff(marks: seq<Mark>)
    requires OneUp(marks) && forall m <- marks :: m.prio <= 2
    ensures var v := Judged(marks, |marks|);
            && (v.Failed? <==> Contradicted(marks, |marks|))
            && (v.Going? ==> (Disagree(marks, v.keep) <==> exists u, t :: Forgotten(marks, u, t)))
  {
    hide Judged, Contradicted, Stays, IsFirst;
    VerdictIs(marks, |marks|);
    var v := Judged(marks, |marks|);
    if v.Going? {
      forall u, t | 0 <= u < |marks| && 0 <= t < |marks| && Same(marks, u, t) && marks[u].up && !marks[t].up
        ensures v.keep[u] && v.keep[t] <==> Forgotten(marks, u, t)
      {
        PairStays(marks, u, t);
      }
      if Disagree(marks, v.keep) {
        var u, t :| 0 <= u < |marks| && 0 <= t < |marks| && v.keep[u] && v.keep[t] && Same(marks, u, t) && marks[u].up && !marks[t].up;
        assert Forgotten(marks, u, t);
      }
    }
  }

  lemma PairStays(marks: seq<Mark>, u: nat, t: nat)
    requires u < |marks| && t < |marks| && Same(marks, u, t) && marks[u].up && !marks[t].up && OneUp(marks)
    ensures Stays(marks, u, |marks|) && Stays(marks, t, |marks|) <==> Forgotten(marks, u, t)
  {
    hide Overtaken, Matched, Leads, IsFirst, StaysDown;
    assert Stays(marks, t, |marks|) <==> StaysDown(marks, u, t) by { OnlyUp(marks, u, t); }
    if Stays(marks, u, |marks|) {
      if t < u {
        FirstLoses(marks, u, t);
      } else {
        LaterLoses(marks, u, t);
      }
    }
  }

  lemma OnlyUp(marks: seq<Mark>, u: nat, t: nat)
    requires u < |marks| && t < |marks| && Same(marks, u, t) && marks[u].up && !marks[t].up && OneUp(marks)
    ensures Stays(marks, t, |marks|) <==> StaysDown(marks, u, t)
  {
    hide StaysDown;
  }

  lemma FirstLoses(marks: seq<Mark>, u: nat, t: nat)
    requires t < u < |marks| && Same(marks, u, t) && Leads(marks, u)
    ensures StaysDown(marks, u, t) <==> !IsFirst(marks, t)
  {
    hide IsFirst;
  }

  lemma LaterLoses(marks: seq<Mark>, u: nat, t: nat)
    requires u < t < |marks| && Same(marks, u, t) && Leads(marks, u) && !Matched(marks, u, |marks|)
    ensures !StaysDown(marks, u, t)
  {
    hide Leads;
  }

  // ---- one edge per neighbor and direction ----

  ghost predicate OnePerDirection(marks: seq<Mark>) {
    forall i, j :: 0 <= i < |marks| && 0 <= j < |marks| && Same(marks, i, j) && marks[i].up == marks[j].up ==> i == j
  }

  ghost predicate Opposite(marks: seq<Mark>, i: int, j: int) {
    0 <= i < |marks| && 0 <= j < |marks| && Same(marks, i, j) && marks[i].up != marks[j].up
  }

  /** No opposite edge of the same neighbor is as strong. */
  ghost predicate StrictlyStronger(marks: seq<Mark>, i: int)
    requires 0 <= i < |marks|
  {
    forall j :: Opposite(marks, i, j) ==> marks[i].prio > marks[j].prio
  }

  /** When no neighbor has two edges in one direction, the walk errs exactly when some neighbor
      is configured both ways, and otherwise an edge is kept exactly when it is strictly stronger
      than the opposite edge, if there is one; a tie removes both. */
  lemma StrictlyStrongerStays(marks: seq<Mark>)
    requires OnePerDirection(marks) && forall m <- marks :: m.prio <= 2
    ensures var v := Judged(marks, |marks|);
            && (v.Failed? <==> exists i, j :: Opposite(marks, i, j) && marks[i].prio == marks[j].prio == 2)
            && (v.Going? ==> forall i :: 0 <= i < |marks| ==>
                  (v.keep[i] <==> StrictlyStronger(marks, i)))
            && (v.Going? ==> !Disagree(marks, v.keep))
  {
    hide Judged, Stays, OnePerDirection, Contradicted, Disagree, Opposite, StrictlyStronger;
    OnePerDirectionIsOneUp(marks);
    hide OneUp;
    VerdictIs(marks, |marks|);
    var v := Judged(marks, |marks|);
    PairContradicts(marks);
    forall i | 0 <= i < |marks|
      ensures Stays(marks, i, |marks|) <==> StrictlyStronger(marks, i)
    {
      if marks[i].up { UpStays(marks, i); } else { DownStays(marks, i); }
    }
    if v.Going? {
      StrictWinnersAgree(marks, v.keep);
    }
  }

  lemma OnePerDirectionIsOneUp(marks: seq<Mark>)
    requires OnePerDirection(marks)
    ensures OneUp(marks)
  {
  }

  lemma StrictWinnersAgree(marks: seq<Mark>, keep: seq<bool>)
    requires |keep| == |marks|
    requires forall i :: 0 <= i < |marks| ==> (keep[i] <==> StrictlyStronger(marks, i))
    ensures !Disagree(marks, keep)
  {
    if Disagree(marks, keep) {
      var u, t :| 0 <= u < |marks| && 0 <= t < |marks| && keep[u] && keep[t] && Same(marks, u, t) && marks[u].up && !marks[t].up;
      assert Opposite(marks, u, t) && Opposite(marks, t, u);
    }
  }

  lemma PairContradicts(marks: seq<Mark>)
    requires OnePerDirection(marks)
    ensures Contradicted(marks, |marks|) <==> exists i, j :: Opposite(marks, i, j) && marks[i].prio == marks[j].prio == 2
  {
    if Contradicted(marks, |marks|) {
      var u, t :| u < |marks| && t < |marks| && Contradicts(marks, u, t);
      assert Opposite(marks, u, t);
    }
    if i, j :| Opposite(marks, i, j) && marks[i].prio == marks[j].prio == 2 {
      var u, t := if marks[i].up then i else j, if marks[i].up then j else i;
      OppositesAreFirst(marks, u, t);
      assert Contradicts(marks, u, t);
    }
  }

  lemma OppositesAreFirst(marks: seq<Mark>, u: nat, t: nat)
    requires OnePerDirection(marks) && Opposite(marks, u, t)
    ensures t < u ==> IsFirst(marks, t)
    ensures u < t ==> IsFirst(marks, u)
  {
    if t < u {
      forall i | 0 <= i < t
        ensures marks[i].key != marks[t].key
      {
        assert !(Same(marks, i, t) && Same(marks, i, u));
      }
    } else {
      forall i | 0 <= i < u
        ensures marks[i].key != marks[u].key
      {
        assert !(Same(marks, i, u) && Same(marks, i, t));
      }
    }
  }

  lemma UpStays(marks: seq<Mark>, u: nat)
    requires OnePerDirection(marks) && u < |marks| && marks[u].up
    ensures Stays(marks, u, |marks|) <==> StrictlyStronger(marks, u)
  {
    forall j: nat | Opposite(marks, u, j)
      ensures j < u ==> IsFirst(marks, j)
    {
      OppositesAreFirst(marks, u, j);
    }
    forall s | 0 <= s < |marks| && s != u && Same(marks, u, s)
      ensures Opposite(marks, u, s)
    {
    }
    assert Leads(marks, u) <==> forall j :: Opposite(marks, u, j) && j < u ==> marks[u].prio > marks[j].prio;
    assert Matched(marks, u, |marks|) <==> exists j :: Opposite(marks, u, j) && j > u && marks[j].prio >= marks[u].prio;
  }

  lemma DownStays(marks: seq<Mark>, t: nat)
    requires OnePerDirection(marks) && t < |marks| && !marks[t].up
    ensures Stays(marks, t, |marks|) <==> StrictlyStronger(marks, t)
  {
    forall u: nat | u < |marks| && marks[u].up && marks[u].key == marks[t].key
      ensures StaysDown(marks, u, t) <==> marks[t].prio > marks[u].prio
    {
      assert Opposite(marks, u, t);
      OppositesAreFirst(marks, u, t);
      if u < t {
        assert Leads(marks, u);
        forall s | u < s < t + 1 && marks[s].key == marks[u].key
          ensures s == t
        {
          assert Same(marks, s, t) && Same(marks, s, u);
        }
      }
    }
  }

  /** Without such a hypothesis agreement fails: the second of two downstream edges is kept
      beside the upstream edge that beat the first. */
  lemma SecondDownstreamEdgeIsForgotten(key: string)
    ensures var marks := [Mark(key, false, 1), Mark(key, false, 1), Mark(key, true, 2)];
            var v := Judged(marks, 3);
            v.Going? && v.keep == [false, true, true] && Disagree(marks, v.keep)
  {
    var marks := [Mark(key, false, 1), Mark(key, false, 1), Mark(key, true, 2)];
    var a := Judged(marks, 1);
    assert Judged(marks, 0) == Going(map[], seq(3, _ => true), []);
    assert a == Going(map[][key := 0], seq(3, _ => true), []);
    var b := Judged(marks, 2);
    assert b == a;
    var v := Judged(marks, 3);
    assert v.keep == [false, true, true];
    assert Same(marks, 2, 1) && v.keep[2] && v.keep[1];
  }
}
