/** The retention planner: which steps a sweep keeps, when a job may be swept at
    all, and the deletes themselves (tools/vast/ckpt_retention.py). */
module CkptRetention {
  import opened Money
  import opened CkptPaths

  // ---- torn uploads ------------------------------------------------------------

  const BNB_SKIPPED := ".bnb_skipped"

  const CKPT_REQUIRED_FILES: seq<seq<string>> := [
    ["trainer_state.json"],
    ["optimizer.pt", "optimizer.bin"],
    ["scheduler.pt"],
    ["adapter_model.safetensors", "adapter_model.bin", "model.safetensors", "pytorch_model.bin",
     "model.safetensors.index.json", "pytorch_model.bin.index.json"]]

  predicate NamesComplete(names: set<string>) {
    forall g :: g in CKPT_REQUIRED_FILES ==> OneOf(names, g)
  }

  /** Under its own name, or left out by name. */
  predicate Has(names: set<string>, name: string) { name in names || name + ".bnb_skipped" in names }

  /** A whole checkpoint: the trainer's state, an optimizer, a scheduler and some weights. */
  lemma NamesCompleteExactly(names: set<string>)
    ensures NamesComplete(names) <==>
              && Has(names, "trainer_state.json")
              && (Has(names, "optimizer.pt") || Has(names, "optimizer.bin"))
              && Has(names, "scheduler.pt")
              && (Has(names, "adapter_model.safetensors") || Has(names, "adapter_model.bin")
                  || Has(names, "model.safetensors") || Has(names, "pytorch_model.bin")
                  || Has(names, "model.safetensors.index.json") || Has(names, "pytorch_model.bin.index.json"))
  {
    var groups := CKPT_REQUIRED_FILES;
    assert groups[0] in groups && groups[1] in groups && groups[2] in groups && groups[3] in groups;
    OneOfFew(names, groups[0]);
    OneOfFew(names, groups[1]);
    OneOfFew(names, groups[2]);
    OneOfFew(names, groups[3]);
  }

  predicate OneOf(names: set<string>, group: seq<string>) {
    exists n :: n in group && (n in names || n + BNB_SKIPPED in names)
  }

  lemma OneOfFew(names: set<string>, group: seq<string>)
    requires 0 < |group| <= 6
    ensures OneOf(names, group) <==>
              || Has(names, group[0])
              || (|group| > 1 && Has(names, group[1])) || (|group| > 2 && Has(names, group[2]))
              || (|group| > 3 && Has(names, group[3])) || (|group| > 4 && Has(names, group[4]))
              || (|group| > 5 && Has(names, group[5]))
  {
    if OneOf(names, group) {
      var n :| n in group && (n in names || n + BNB_SKIPPED in names);
      var k :| 0 <= k < |group| && group[k] == n;
      assert Has(names, group[k]);
    }
  }

  /** An object as its segments below the job's checkpoint prefix. */
  type Object = seq<string>

  function Base(o: Object): string { if o == [] then "" else o[|o| - 1] }

  function Marked(objects: seq<Object>): set<Key> {
    set o | o in objects && MarkerKey(o).Some? :: MarkerKey(o).value
  }

  predicate IsMember(o: Object, k: Key) { MarkerKey(o).None? && CkptKey(o) == Some(k) }

  function Members(objects: seq<Object>): set<Key> {
    set o | o in objects && MarkerKey(o).None? && CkptKey(o).Some? :: CkptKey(o).value
  }

  function Names(objects: seq<Object>, k: Key): set<string> {
    set o | o in objects && IsMember(o, k) :: Base(o)
  }

  /** Some step of this root proves that the job writes what a torn one lacks. */
  predicate Judgeable(objects: seq<Object>, root: seq<string>) {
    || (exists k :: k in Marked(objects) && k.root == root)
    || (exists k :: k in Members(objects) && k.root == root && NamesComplete(Names(objects, k)))
  }

  predicate Torn(objects: seq<Object>, k: Key) {
    Judgeable(objects, k.root) && k !in Marked(objects) && !NamesComplete(Names(objects, k))
  }

  function IncompleteKeys(objects: seq<Object>): set<Key> {
    set k | k in Members(objects) && Torn(objects, k)
  }

  method IncompleteCheckpointKeys(objects: seq<Object>) returns (torn: set<Key>)
    ensures torn == IncompleteKeys(objects)
  {
    var marked: set<Key>, members: map<Key, set<string>> := {}, map[];
    for i := 0 to |objects|
      invariant marked == Marked(objects[..i])
      invariant members.Keys == Members(objects[..i])
      invariant forall k :: k in members ==> members[k] == Names(objects[..i], k)
    {
      var o := objects[i];
      assert objects[..i + 1] == objects[..i] + [o];
      var mk := MarkerKey(o);
      if mk.Some? {
        marked := marked + {mk.value};
        assert forall k :: k in members ==> Names(objects[..i + 1], k) == Names(objects[..i], k);
      } else {
        var ck := CkptKey(o);
        if ck.Some? {
          var had := if ck.value in members then members[ck.value] else {};
          NamesGrow(objects[..i], o, ck.value);
          members := members[ck.value := had + {Base(o)}];
        } else {
          assert forall k :: k in members ==> Names(objects[..i + 1], k) == Names(objects[..i], k);
        }
      }
    }
    assert objects[..|objects|] == objects;
    var judgeable := set k | k in marked :: k.root;
    judgeable := judgeable + set k | k in members && NamesComplete(members[k]) :: k.root;
    torn := set k | k in members && k.root in judgeable && k !in marked && !NamesComplete(members[k]);
  }

  lemma NamesGrow(objects: seq<Object>, o: Object, k: Key)
    requires IsMember(o, k)
    ensures Names(objects + [o], k) == Names(objects, k) + {Base(o)}
    ensures k !in Members(objects) ==> Names(objects, k) == {}
    ensures forall k' :: k' != k ==> Names(objects + [o], k') == Names(objects, k')
  {
  }

  // ---- the keep policy ---------------------------------------------------------

  /** The three knobs as given; any of them may be zero or, by mistake, negative. */
  datatype Policy = Policy(first: int, last: int, stride: int)

  /** What the planner checks before it touches a sole copy. */
  predicate Given(p: Policy) { p.first != 0 || p.last != 0 || p.stride != 0 }

  /** What actually keeps something. */
  predicate Keeps(p: Policy) { p.first > 0 || p.last > 0 || p.stride > 0 }

  function Older(steps: set<nat>, s: nat): set<nat> { set t | t in steps && t < s }

  function Rank(steps: set<nat>, s: nat): nat { |Older(steps, s)| }

  /** The step survives: among the oldest, among the newest, or on the stride. */
  predicate KeptStep(steps: set<nat>, s: nat, p: Policy) {
    && s in steps
    && (Rank(steps, s) < p.first
        || |steps| - Rank(steps, s) <= p.last
        || (p.stride > 0 && Rank(steps, s) % p.stride == 0))
  }

  function StepsOf(keys: set<Key>, root: seq<string>): set<nat> {
    set k | k in keys && k.root == root :: k.step
  }

  function KeysKept(keys: set<Key>, p: Policy): set<Key> {
    set k | k in keys && KeptStep(StepsOf(keys, k.root), k.step, p)
  }

  predicate Ascending(s: seq<nat>) { forall i, j :: 0 <= i < j < |s| ==> s[i] < s[j] }

  method Least(steps: set<nat>) returns (least: nat)
    requires steps != {}
    ensures least in steps && forall t :: t in steps ==> least <= t
  {
    least :| least in steps;
    var others := steps - {least};
    while others != {}
      invariant least in steps && others <= steps
      invariant forall t :: t in steps && t !in others ==> least <= t
      decreases others
    {
      var t :| t in others;
      if t < least {
        least := t;
      }
      others := others - {t};
    }
  }

  method Sorted(steps: set<nat>) returns (ordered: seq<nat>)
    ensures Ascending(ordered) && Elements(ordered) == steps
  {
    ordered := [];
    var rest := steps;
    while rest != {}
      invariant Ascending(ordered) && rest <= steps
      invariant Elements(ordered) == steps - rest
      invariant forall i, t :: 0 <= i < |ordered| && t in rest ==> ordered[i] < t
      decreases rest
    {
      var least := Least(rest);
      ElementsGrow(ordered, least);
      ordered := ordered + [least];
      rest := rest - {least};
    }
  }

  function Elements(s: seq<nat>): set<nat> { set t | t in s }

  lemma ElementsGrow(s: seq<nat>, x: nat)
    ensures Elements(s + [x]) == Elements(s) + {x}
  {
  }

  lemma {:induction false} AscendingCount(s: seq<nat>)
    requires Ascending(s)
    ensures |Elements(s)| == |s|
  {
    if s != [] {
      var n := |s| - 1;
      AscendingCount(s[..n]);
      ElementsGrow(s[..n], s[n]);
      assert s[..n] + [s[n]] == s;
      assert s[n] !in Elements(s[..n]);
    }
  }

  /** A step's rank is its place in the sorted list. */
  lemma RankIsIndex(ordered: seq<nat>, i: nat)
    requires Ascending(ordered) && i < |ordered|
    ensures Rank(Elements(ordered), ordered[i]) == i && |Elements(ordered)| == |ordered|
  {
    AscendingCount(ordered);
    AscendingCount(ordered[..i]);
    var below := Older(Elements(ordered), ordered[i]);
    forall t ensures t in below <==> t in Elements(ordered[..i]) {
      if t in below {
        var j :| 0 <= j < |ordered| && ordered[j] == t;
        assert j < i;
        assert ordered[..i][j] == t;
      }
      if t in Elements(ordered[..i]) {
        var j :| 0 <= j < i && ordered[..i][j] == t;
        assert ordered[j] == t;
      }
    }
    assert below == Elements(ordered[..i]);
  }

  function Slices(ordered: seq<nat>, p: Policy): set<nat> {
    var n := |ordered|;
    (if p.first > 0 then Elements(ordered[..if p.first < n then p.first else n]) else {})
    + (if p.last > 0 then Elements(ordered[if p.last < n then n - p.last else 0..]) else {})
    + (if p.stride > 0 then set i | 0 <= i < n && i % p.stride == 0 :: ordered[i] else {})
  }

  /** The slices `[:first]`, `[-last:]` and `[::stride]` of the sorted steps. */
  method StepsToKeep(steps: set<nat>, p: Policy) returns (kept: set<nat>)
    ensures kept == set s | s in steps && KeptStep(steps, s, p)
  {
    var ordered := Sorted(steps);
    kept := Slices(ordered, p);
    forall s ensures s in kept <==> s in steps && KeptStep(steps, s, p) {
      if s in steps {
        assert s in Elements(ordered);
        var i :| 0 <= i < |ordered| && ordered[i] == s;
        SlicesByIndex(ordered, p, i);
      }
      if s in kept {
        assert s in Elements(ordered);
      }
    }
  }

  lemma SlicesByIndex(ordered: seq<nat>, p: Policy, i: nat)
    requires Ascending(ordered) && i < |ordered|
    ensures ordered[i] in Slices(ordered, p) <==> KeptStep(Elements(ordered), ordered[i], p)
  {
    var n, x := |ordered|, ordered[i];
    RankIsIndex(ordered, i);
    InHead(ordered, i, if 0 < p.first < n then p.first else n);
    InTail(ordered, i, if 0 < p.last < n then n - p.last else 0);
    assert forall j :: 0 <= j < n && ordered[j] == x ==> j == i;
    hide Ascending, Rank;
  }

  lemma InHead(ordered: seq<nat>, i: nat, cut: nat)
    requires Ascending(ordered) && i < |ordered| && cut <= |ordered|
    ensures ordered[i] in ordered[..cut] <==> i < cut
  {
    if i < cut {
      assert ordered[..cut][i] == ordered[i];
    }
  }

  lemma InTail(ordered: seq<nat>, i: nat, cut: nat)
    requires Ascending(ordered) && i < |ordered| && cut <= |ordered|
    ensures ordered[i] in ordered[cut..] <==> i >= cut
  {
    if i >= cut {
      assert ordered[cut..][i - cut] == ordered[i];
    }
  }

  method KeysToKeep(keys: set<Key>, p: Policy) returns (kept: set<Key>)
    ensures kept == KeysKept(keys, p)
  {
    var roots := set k | k in keys :: k.root;
    kept := {};
    var todo := roots;
    while todo != {}
      invariant todo <= roots
      invariant kept == set k | k in KeysKept(keys, p) && k.root !in todo
      decreases todo
    {
      var root :| root in todo;
      var steps := StepsToKeep(StepsOf(keys, root), p);
      todo := todo - {root};
      forall k ensures k in (set s | s in steps :: Key(root, s)) <==> k in KeysKept(keys, p) && k.root == root {
        if k in KeysKept(keys, p) && k.root == root {
          assert k == Key(root, k.step) && k.step in steps;
        }
        if k.root == root && k.step in steps {
          var k' :| k' in keys && k'.root == root && k'.step == k.step;
        }
      }
      kept := kept + set s | s in steps :: Key(root, s);
    }
  }

  lemma {:induction false} Extremes(steps: set<nat>) returns (lo: nat, hi: nat)
    requires steps != {}
    ensures lo in steps && hi in steps && forall t :: t in steps ==> lo <= t <= hi
    decreases steps
  {
    var x :| x in steps;
    if steps == {x} {
      lo, hi := x, x;
    } else {
      var others := steps - {x};
      assert steps == others + {x} && others != {};
      lo, hi := Extremes(others);
      lo, hi := if x < lo then x else lo, if x > hi then x else hi;
      assert forall t :: t in steps ==> t == x || t in others;
    }
  }

  /** A policy with a positive knob keeps a step of every non-empty series, and one
      without keeps nothing. */
  lemma PolicyKeepsExactly(steps: set<nat>, p: Policy)
    requires steps != {}
    ensures (exists s :: KeptStep(steps, s, p)) <==> Keeps(p)
  {
    var lo, hi := Extremes(steps);
    assert Older(steps, lo) == {};
    assert Older(steps, hi) == steps - {hi};
    assert Rank(steps, lo) == 0 && Rank(steps, hi) == |steps| - 1;
    if p.first > 0 || p.stride > 0 {
      assert KeptStep(steps, lo, p);
    }
    if p.last > 0 {
      assert KeptStep(steps, hi, p);
    }
    forall s | s in steps ensures Rank(steps, s) < |steps| {
      SubsetCount(Older(steps, s), steps - {s});
    }
  }

  function Newer(steps: set<nat>, s: nat): set<nat> { set t | t in steps && t > s }

  /** A step survives exactly when fewer than `first` steps are older, fewer than `last`
      are newer, or the number of older ones is a multiple of the stride. */
  lemma KeptExactly(steps: set<nat>, s: nat, p: Policy)
    requires s in steps
    ensures KeptStep(steps, s, p) <==>
              || |Older(steps, s)| < p.first
              || |Newer(steps, s)| < p.last
              || (p.stride > 0 && |Older(steps, s)| % p.stride == 0)
  {
    var below, above := Older(steps, s), Newer(steps, s);
    assert steps == below + {s} + above;
    assert |steps| == |below + {s}| + |above| == |below| + 1 + |above|;
  }

  lemma {:induction false} SubsetCount(a: set<nat>, b: set<nat>)
    requires a <= b
    ensures |a| <= |b|
    decreases a
  {
    if a != {} {
      var x :| x in a;
      SubsetCount(a - {x}, b - {x});
    }
  }

  // ---- one job, one verdict ------------------------------------------------------

  const DAY_S := 86400.0

  datatype Status = Done | Cancelled | Failed | StillOpen

  /** `mtime` is absent when the listing's timestamp could not be read. */
  datatype CkptObj = CkptObj(path: string, size: int, mtime: Option<real>)

  /** Everything known of one job; an absent answer means it could not be read. */
  datatype Job = Job(objects: seq<CkptObj>, status: Option<Status>, published: Option<bool>, pruned: Option<bool>,
                     now: real, windowDays: real, includeFailed: bool, sweepBoxPruned: bool, policy: Policy)

  datatype Verdict =
    | UnsafePath
    | NothingToDo
    | Keep
    | Sweep(doomed: seq<CkptObj>)

  function Sized(objects: seq<CkptObj>): seq<CkptObj> {
    if objects == [] then []
    else
      var init, o := Sized(objects[..|objects| - 1]), objects[|objects| - 1];
      if o.size >= 0 then init + [o] else init
  }

  function Parts(objects: seq<CkptObj>): seq<Object>
    requires forall o :: o in objects ==> Below(o.path).Some?
  {
    seq(|objects|, i requires 0 <= i < |objects| => Below(objects[i].path).value)
  }

  /** The steps a job holds; a sibling marker counts for its checkpoint. */
  function Steps(objects: seq<Object>): set<Key> {
    set o | o in objects && AnyKey(o).Some? :: AnyKey(o).value
  }

  /** The steps that survive: the policy, per layout root, over what is not torn. */
  function Kept(objects: seq<Object>, p: Policy): set<Key> {
    KeysKept(Steps(objects) - IncompleteKeys(objects), p)
  }

  predicate IsKept(o: CkptObj, kept: set<Key>)
    requires Below(o.path).Some?
  {
    AnyKey(Below(o.path).value).Some? && AnyKey(Below(o.path).value).value in kept
  }

  function Doomed(objects: seq<CkptObj>, kept: set<Key>): seq<CkptObj>
    requires forall o :: o in objects ==> Below(o.path).Some?
  {
    if objects == [] then []
    else
      var init, o := Doomed(objects[..|objects| - 1], kept), objects[|objects| - 1];
      if IsKept(o, kept) then init else init + [o]
  }

  predicate Terminal(j: Job) {
    j.status.Some? && (j.status.value.Done? || j.status.value.Cancelled? || (j.status.value.Failed? && j.includeFailed))
  }

  predicate Aged(j: Job) {
    forall o :: o in Sized(j.objects) ==> o.mtime.Some? && o.mtime.value <= j.now - j.windowDays * DAY_S
  }

  function Classify(j: Job): Verdict {
    var objs := Sized(j.objects);
    if exists o :: o in objs && Below(o.path).None? then UnsafePath
    else if objs == [] then NothingToDo
    else if !Terminal(j) then Keep
    else if j.published != Some(true) then Keep
    else if exists o :: o in objs && o.mtime.None? then Keep
    else if j.pruned.None? then Keep
    else if j.pruned.value && !j.sweepBoxPruned then Keep
    else if j.pruned.value && !Given(j.policy) then Keep
    else if exists o :: o in objs && o.mtime.value > j.now - j.windowDays * DAY_S then Keep
    else
      var doomed := Doomed(objs, Kept(Parts(objs), j.policy));
      if doomed == [] then NothingToDo else Sweep(doomed)
  }

  lemma DoomedExactly(objects: seq<CkptObj>, kept: set<Key>, o: CkptObj)
    requires forall x :: x in objects ==> Below(x.path).Some?
    ensures o in Doomed(objects, kept) <==> o in objects && !IsKept(o, kept)
  {
    if objects != [] {
      assert objects == objects[..|objects| - 1] + [objects[|objects| - 1]];
      DoomedExactly(objects[..|objects| - 1], kept, o);
    }
  }

  lemma SizedExactly(objects: seq<CkptObj>, o: CkptObj)
    ensures o in Sized(objects) <==> o in objects && o.size >= 0
  {
    if objects != [] {
      assert objects == objects[..|objects| - 1] + [objects[|objects| - 1]];
      SizedExactly(objects[..|objects| - 1], o);
    }
  }

  /** What a sweep rests on, every path understood and not one answer unknown: the job is
      done or cancelled, or failed and failed jobs are asked for; it is published; nothing
      of it is younger than the window, in days of 86400 seconds; and if its box had
      pruned checkpoints, that was opted into and some keep knob was set. */
  predicate Evidence(j: Job) {
    && (forall o :: o in Sized(j.objects) ==> Below(o.path).Some?)
    && j.status.Some?
    && (j.status.value == Done || j.status.value == Cancelled || (j.status.value == Failed && j.includeFailed))
    && j.published == Some(true)
    && (forall o :: o in Sized(j.objects) ==> o.mtime.Some? && j.now - o.mtime.value >= j.windowDays * 86400.0)
    && j.pruned.Some?
    && (j.pruned.value ==>
          j.sweepBoxPruned && !(j.policy.first == 0 && j.policy.last == 0 && j.policy.stride == 0))
  }

  /** A job is swept exactly on evidence, when something of it is not kept; and what
      goes is exactly the listed objects whose checkpoint the policy does not keep. */
  lemma SweepNeedsEvidence(j: Job, o: CkptObj)
    ensures Classify(j).Sweep? <==>
              Evidence(j) && exists x :: x in Sized(j.objects) && !IsKept(x, Kept(Parts(Sized(j.objects)), j.policy))
    ensures Classify(j).Sweep? ==>
              (o in Classify(j).doomed <==>
                 o in j.objects && o.size >= 0 && Below(o.path).Some? && !IsKept(o, Kept(Parts(Sized(j.objects)), j.policy)))
  {
    hide Kept, IsKept, Below;
    var objs := Sized(j.objects);
    SizedExactly(j.objects, o);
    if forall x :: x in objs ==> Below(x.path).Some? {
      var kept := Kept(Parts(objs), j.policy);
      DoomedExactly(objs, kept, o);
      if x :| x in objs && !IsKept(x, kept) {
        DoomedExactly(objs, kept, x);
      }
      if Doomed(objs, kept) != [] {
        DoomedExactly(objs, kept, Doomed(objs, kept)[0]);
      }
    }
  }

  // ---- what the policy leaves behind ----------------------------------------------

  predicate Holds(objects: seq<Object>, root: seq<string>) { exists k :: k in Steps(objects) && k.root == root }

  predicate Emptied(objects: seq<Object>, p: Policy, root: seq<string>) {
    forall k :: k in Kept(objects, p) ==> k.root != root
  }

  /** A step listed by its own files, with no marker beside it and not all of them there. */
  predicate Debris(objects: seq<Object>, k: Key) {
    k in Members(objects) && k !in Marked(objects) && !NamesComplete(Names(objects, k))
  }

  predicate HasMarker(objects: seq<Object>, root: seq<string>) { exists m :: m in Marked(objects) && m.root == root }

  lemma MemberIsAStep(objects: seq<Object>, k: Key)
    requires k in Members(objects)
    ensures k in Steps(objects)
  {
    var o :| o in objects && MarkerKey(o).None? && CkptKey(o) == Some(k);
    assert AnyKey(o) == Some(k);
  }

  /** Under a policy with a positive knob a layout root that holds a step is emptied exactly
      when it holds a marker, and all of its steps are unmarked debris. The marker then
      marks none of them: it counts for an outer step, whose directory it lies in. */
  lemma RootEmptiedExactly(objects: seq<Object>, p: Policy, root: seq<string>)
    requires Keeps(p) && Holds(objects, root)
    ensures Emptied(objects, p, root) <==>
              HasMarker(objects, root) && forall k :: k in Steps(objects) && k.root == root ==> Debris(objects, k)
  {
    hide NamesComplete, Steps, Members, Marked, Names, IncompleteKeys;
    var keys := Steps(objects) - IncompleteKeys(objects);
    IncompleteExactly(objects);
    if Emptied(objects, p, root) {
      forall k | k in keys ensures k.root != root {
        if k.root == root {
          var kept := SomethingIsKept(objects, p, k);
        }
      }
    } else {
      var k :| k in Kept(objects, p) && k.root == root;
      assert k in keys;
    }
    if m :| m in Members(objects) && m.root == root && NamesComplete(Names(objects, m)) {
      MemberIsAStep(objects, m);
      assert !Debris(objects, m);
    }
  }

  lemma IncompleteExactly(objects: seq<Object>)
    ensures forall k :: k in IncompleteKeys(objects) <==> Debris(objects, k) && Judgeable(objects, k.root)
  {
    hide NamesComplete, Marked, Names, Judgeable;
  }

  /** A step that is not torn keeps its root alive. */
  lemma SomethingIsKept(objects: seq<Object>, p: Policy, whole: Key) returns (kept: Key)
    requires Keeps(p) && whole in Steps(objects) && whole !in IncompleteKeys(objects)
    ensures kept in Kept(objects, p) && kept.root == whole.root
  {
    hide Steps, IncompleteKeys, KeptStep;
    var keys := Steps(objects) - IncompleteKeys(objects);
    var steps := StepsOf(keys, whole.root);
    assert whole.step in steps;
    PolicyKeepsExactly(steps, p);
    var s :| KeptStep(steps, s, p);
    assert s in steps by { KeptIsAStep(steps, s, p); }
    kept :| kept in keys && kept.root == whole.root && kept.step == s;
  }

  /** No completion marker lies inside a directory that is itself a step. */
  predicate Unnested(objects: seq<Object>) {
    forall o :: o in objects && MarkerKey(o).Some? ==> CkptKey(o).None?
  }

  /** So where markers lie beside step directories, never inside one, no root is emptied. */
  lemma NoRootIsEmptied(objects: seq<Object>, p: Policy, root: seq<string>)
    requires Unnested(objects) && Keeps(p) && Holds(objects, root)
    ensures !Emptied(objects, p, root)
  {
    RootEmptiedExactly(objects, p, root);
    hide MarkerKey, CkptKey, Emptied;
    if m :| m in Marked(objects) && m.root == root {
      var o :| o in objects && MarkerKey(o) == Some(m);
      assert AnyKey(o) == Some(m);
      assert m in Steps(objects) && !Debris(objects, m);
    }
  }

  lemma KeptIsAStep(steps: set<nat>, s: nat, p: Policy)
    requires KeptStep(steps, s, p)
    ensures s in steps
  {
  }

  /** The guard on a sole copy tests that a knob was given, not that it keeps: with
      only zero and negative knobs nothing survives, and `--keep-last -1` gets past it. */
  lemma NegativePolicySweepsEverything(objects: seq<Object>, p: Policy)
    ensures !Keeps(p) ==> Kept(objects, p) == {}
    ensures Given(Policy(0, -1, 0)) && !Keeps(Policy(0, -1, 0))
  {
    hide IncompleteKeys, Steps, StepsOf;
    if !Keeps(p) {
      var keys := Steps(objects) - IncompleteKeys(objects);
      forall k | k in keys ensures !KeptStep(StepsOf(keys, k.root), k.step, p) {
        if KeptStep(StepsOf(keys, k.root), k.step, p) {
          PolicyKeepsExactly(StepsOf(keys, k.root), p);
        }
      }
    }
  }

  /** The smallest such listing: a marker nested under a step, and a file of one torn
      step beside it. */
  lemma NestedMarkerEmptiesARoot(marker: Object, member: Object, root: seq<string>, step: nat, p: Policy)
    requires MarkerKey(marker).Some? && MarkerKey(marker).value.root == root && MarkerKey(marker).value.step != step
    requires CkptKey(marker).Some?
    requires IsMember(member, Key(root, step)) && !NamesComplete({Base(member)})
    ensures Key(root, step) in Steps([marker, member])
    ensures Emptied([marker, member], p, root)
  {
    hide NamesComplete, MarkerKey, CkptKey, Base;
    var objects, k := [marker, member], Key(root, step);
    assert marker in objects && member in objects;
    assert Names(objects, k) == {Base(member)};
    assert MarkerKey(marker).value in Marked(objects);
    assert CkptKey(marker).value.root != root by { NestedIsDeeper(marker); }
    if Keeps(p) {
      RootEmptiedExactly(objects, p, root);
    } else {
      NegativePolicySweepsEverything(objects, p);
    }
  }

  lemma NestedIsDeeper(marker: Object)
    requires MarkerKey(marker).Some? && CkptKey(marker).Some?
    ensures CkptKey(marker).value.root != MarkerKey(marker).value.root
  {
    hide StepOf;
    var n := |marker| - 1;
    var name := marker[n];
    MarkerNameIsNoStep(name);
    CkptKeyIsAbove(marker[..n]);
  }

  lemma MarkerNameIsNoStep(name: string)
    requires EndsWith(name, CKPT_COMPLETE_SUFFIX)
    ensures StepOf(name).None?
  {
    if STEP_PREFIX <= name {
      var tail := name[|STEP_PREFIX|..];
      assert name[|name| - 1] == CKPT_COMPLETE_SUFFIX[|CKPT_COMPLETE_SUFFIX| - 1] == 'n';
      if tail != "" {
        assert tail[|tail| - 1] == 'n';
      }
    }
  }

  /** The shape does occur: a step directory inside a step directory. */
  lemma NestedShapeExists()
    ensures var marker, member := ["checkpoint-5", "checkpoint-7.complete.json"], ["checkpoint-5", "checkpoint-8", "x"];
            && MarkerKey(marker) == Some(Key(["checkpoint-5"], 7)) && CkptKey(marker).Some?
            && IsMember(member, Key(["checkpoint-5"], 8)) && !NamesComplete({Base(member)})
  {
    hide Value, Digits;
    DigitSteps();
    var dir, name := ["checkpoint-5"], "checkpoint-7.complete.json";
    assert dir[0][11..] == "5" && "checkpoint-8"[11..] == "8";
    assert CkptKey(dir).Some?;
    assert name[12..] == CKPT_COMPLETE_SUFFIX && name[..12] == "checkpoint-7" && name[..12][11..] == "7";
    MarkerNameIsNoStep(name);
    assert ["checkpoint-5", name][..1] == dir;
    assert dir + ["checkpoint-8"] + ["x"] == ["checkpoint-5", "checkpoint-8", "x"];
    assert StepOf("x").None?;
    CkptKeyOfDeeper(dir + ["checkpoint-8"], ["x"]);
    assert (dir + ["checkpoint-8"])[..1] == dir;
    assert ["checkpoint-5", "checkpoint-8", "x"][..2] == ["checkpoint-5", "checkpoint-8"];
    assert CKPT_REQUIRED_FILES[2] == ["scheduler.pt"];
    assert ["scheduler.pt"] in CKPT_REQUIRED_FILES;
  }

  lemma DigitSteps()
    ensures Digits("5") && Digits("7") && Digits("8") && Value("5") == 5 && Value("7") == 7 && Value("8") == 8
  {
    assert "5"[..0] == "" && "7"[..0] == "" && "8"[..0] == "";
  }

  // ---- debris -----------------------------------------------------------------------

  lemma KeysOfConcat(a: seq<Object>, b: seq<Object>)
    ensures Steps(a + b) == Steps(a) + Steps(b)
    ensures Members(a + b) == Members(a) + Members(b)
    ensures Marked(a + b) == Marked(a) + Marked(b)
  {
    hide AnyKey, MarkerKey, CkptKey;
  }

  lemma NamesOfConcat(a: seq<Object>, b: seq<Object>, k: Key)
    ensures Names(a + b, k) == Names(a, k) + Names(b, k)
  {
    hide IsMember, Base;
  }

  /** Objects of one step have only that key. */
  lemma DebrisKeys(debris: seq<Object>, k: Key)
    requires forall o :: o in debris ==> IsMember(o, k)
    ensures Steps(debris) <= {k} && Members(debris) == Steps(debris) && Marked(debris) == {}
    ensures forall k' :: k' != k ==> Names(debris, k') == {}
  {
    hide MarkerKey, CkptKey;
  }

  lemma FewerNamesStayIncomplete(few: set<string>, many: set<string>)
    requires few <= many && !NamesComplete(many)
    ensures !NamesComplete(few)
  {
  }

  lemma DebrisJudgesNothing(objects: seq<Object>, debris: seq<Object>, k: Key, root: seq<string>)
    requires forall o :: o in debris ==> IsMember(o, k)
    requires !NamesComplete(Names(objects + debris, k))
    ensures Judgeable(objects + debris, root) <==> Judgeable(objects, root)
  {
    hide NamesComplete, IsMember;
    var all := objects + debris;
    KeysOfConcat(objects, debris);
    DebrisKeys(debris, k);
    forall k' | k' != k ensures Names(all, k') == Names(objects, k') {
      NamesOfConcat(objects, debris, k');
      assert Names(debris, k') == {};
    }
    NamesOfConcat(objects, debris, k);
    FewerNamesStayIncomplete(Names(objects, k), Names(all, k));
  }

  /** More objects of a torn step change nothing: as long as the step stays torn
      under a root that was already judged, exactly the same steps are kept. */
  lemma TornDebrisIsInvisible(objects: seq<Object>, debris: seq<Object>, k: Key, p: Policy)
    requires k in Steps(objects) ==> k in Members(objects)
    requires forall o :: o in debris ==> IsMember(o, k)
    requires Judgeable(objects, k.root)
    requires k !in Marked(objects) && !NamesComplete(Names(objects + debris, k))
    ensures Kept(objects + debris, p) == Kept(objects, p)
  {
    hide NamesComplete, Judgeable, IsMember, KeysKept;
    var all := objects + debris;
    KeysOfConcat(objects, debris);
    DebrisKeys(debris, k);
    NamesOfConcat(objects, debris, k);
    FewerNamesStayIncomplete(Names(objects, k), Names(all, k));
    if k in Members(objects) {
      MemberIsAStep(objects, k);
    }
    forall x ensures x in Steps(all) - IncompleteKeys(all) <==> x in Steps(objects) - IncompleteKeys(objects) {
      DebrisJudgesNothing(objects, debris, k, x.root);
      if x != k {
        NamesOfConcat(objects, debris, x);
        assert Names(debris, x) == {};
        assert Names(all, x) == Names(objects, x);
        assert Torn(all, x) == Torn(objects, x);
      } else {
        assert Torn(all, k) && Torn(objects, k);
      }
    }
    assert Steps(all) - IncompleteKeys(all) == Steps(objects) - IncompleteKeys(objects);
  }

  // ---- the deletes --------------------------------------------------------------------

  /** What one delete call reports. */
  datatype Deletion = Refused | Reported(deleted: seq<string>, failed: seq<string>)

  predicate SomethingUnsafe(paths: seq<string>) { exists p :: p in paths && AssertSweepable(p).None? }

  lemma CheckedPathIsSweepable(path: string)
    requires AssertSweepable(path).Some?
    ensures AssertSweepable(AssertSweepable(path).value) == AssertSweepable(path)
  {
    var p := AssertSweepable(path).value;
    assert p[0] == 'j';
    assert LStrip(p) == p;
  }

  /** The caller asked for this object, and its `i`-th delete call, for some `i`, was
      answered this way. */
  predicate AskedAndAnswered(paths: seq<string>, accepts: nat -> bool, p: string, answer: bool) {
    exists i :: 0 <= i < |paths| && AssertSweepable(paths[i]) == Some(p) && accepts(i) == answer
  }

  /** The bucket a sweep works on: its objects by name. */
  class Bucket {
    var objects: set<string>

    constructor (objects: set<string>)
      ensures this.objects == objects
    {
      this.objects := objects;
    }

    /** Every path is checked before the first delete, so one path outside
        `jobs/<JOB_ID>/checkpoints/` leaves the bucket as it was. Otherwise every
        call is accounted for as deleted or failed, exactly the deleted objects are
        gone, and no object that is not itself sweepable has been touched.
        `accepts(i)` is the backend's answer to the `i`-th delete. */
    method DeleteObjects(paths: seq<string>, accepts: nat -> bool) returns (result: Deletion)
      modifies this
      ensures result.Refused? <==> SomethingUnsafe(paths)
      ensures result.Refused? ==> objects == old(objects)
      ensures result.Reported? ==>
                && objects == old(objects) - (set p | p in result.deleted)
                && |result.deleted| + |result.failed| == |paths|
                && (forall p :: p in result.deleted <==> AskedAndAnswered(paths, accepts, p, true))
                && (forall p :: p in result.failed <==> AskedAndAnswered(paths, accepts, p, false))
      ensures forall p :: p in old(objects) && AssertSweepable(p) != Some(p) ==> p in objects
    {
      hide AssertSweepable;
      var checked: seq<string> := [];
      for i := 0 to |paths|
        invariant |checked| == i && objects == old(objects)
        invariant forall j :: 0 <= j < i ==> AssertSweepable(paths[j]) == Some(checked[j])
      {
        var p := AssertSweepable(paths[i]);
        if p.None? {
          return Refused;
        }
        checked := checked + [p.value];
      }
      var deleted: seq<string>, failed: seq<string> := [], [];
      for i := 0 to |checked|
        invariant objects == old(objects) - (set p | p in deleted)
        invariant |deleted| + |failed| == i
        invariant forall p :: p in deleted <==> AskedAndAnswered(paths[..i], accepts, p, true)
        invariant forall p :: p in failed <==> AskedAndAnswered(paths[..i], accepts, p, false)
        invariant forall p :: p in old(objects) && AssertSweepable(p) != Some(p) ==> p in objects
      {
        AnswersGrow(paths, accepts, i, checked[i]);
        CheckedPathIsSweepable(paths[i]);
        if accepts(i) {
          objects := objects - {checked[i]};
          deleted := deleted + [checked[i]];
        } else {
          failed := failed + [checked[i]];
        }
      }
      assert paths[..|paths|] == paths;
      result := Reported(deleted, failed);
    }

    /** A whole plan: every job is judged first, and one path the tool does not understand
        ends it before the first delete. Otherwise each swept job has its own delete
        call, and an object is gone only by right of some job's evidence. */
    method SweepPlan(jobs: seq<Job>, accepts: nat -> nat -> bool) returns (refused: bool)
      modifies this
      ensures refused <==> exists j :: j in jobs && Classify(j).UnsafePath?
      ensures refused ==> objects == old(objects)
      ensures objects <= old(objects)
      ensures forall p :: p in old(objects) - objects ==> SweptBySome(jobs, p)
      ensures !refused ==> forall i, k :: 0 <= i < |jobs| && 0 <= k && Accepted(jobs[i], accepts(i), k) ==>
                             DoomedPath(jobs[i], k) !in objects
    {
      hide Classify, AssertSweepable, SweptByRight, Accepted, DoomedPath;
      for i := 0 to |jobs|
        invariant forall k :: 0 <= k < i ==> !Classify(jobs[k]).UnsafePath?
        invariant objects == old(objects)
      {
        if Classify(jobs[i]).UnsafePath? {
          return true;
        }
      }
      for i := 0 to |jobs|
        invariant objects <= old(objects)
        invariant forall p :: p in old(objects) - objects ==> SweptBySome(jobs, p)
        invariant forall n, k :: 0 <= n < i && 0 <= k && Accepted(jobs[n], accepts(n), k) ==>
                    DoomedPath(jobs[n], k) !in objects
      {
        var verdict := Classify(jobs[i]);
        assert forall k: nat :: Accepted(jobs[i], accepts(i), k) ==> verdict.Sweep? by { AcceptedIsSwept(jobs[i], accepts(i)); }
        if verdict.Sweep? {
          ghost var before := objects;
          var result := DeleteObjects(PathsOf(verdict.doomed), accepts(i));
          forall p | p in before - objects ensures SweptBySome(jobs, p) {
            assert result.Reported? && p in result.deleted;
            AskedByRight(jobs[i], accepts(i), p);
            assert jobs[i] in jobs;
          }
          forall k: nat | Accepted(jobs[i], accepts(i), k) ensures DoomedPath(jobs[i], k) !in objects {
            AcceptedIsAnswered(jobs[i], accepts(i), k);
            PlanIsSafe(jobs[i]);
            assert result.Reported? && DoomedPath(jobs[i], k) in result.deleted;
          }
          assert old(objects) - objects <= (old(objects) - before) + (before - objects);
        }
      }
      refused := false;
    }
  }

  function PathsOf(objects: seq<CkptObj>): seq<string> { seq(|objects|, i requires 0 <= i < |objects| => objects[i].path) }

  function KeptOf(j: Job): set<Key>
    requires forall o :: o in Sized(j.objects) ==> Below(o.path).Some?
  {
    Kept(Parts(Sized(j.objects)), j.policy)
  }

  /** The job was swept on evidence, and lists this object under a checkpoint it does not keep. */
  predicate SweptByRight(j: Job, p: string) {
    Evidence(j) && exists o :: o in Sized(j.objects) && AssertSweepable(o.path) == Some(p) && !IsKept(o, KeptOf(j))
  }

  /** The job is swept, and the delete of its `k`-th doomed object accepted. */
  predicate Accepted(j: Job, accepts: nat -> bool, k: nat) {
    Classify(j).Sweep? && k < |Classify(j).doomed| && accepts(k)
  }

  /** Where that object lies. */
  function DoomedPath(j: Job, k: nat): string {
    if Classify(j).Sweep? && k < |Classify(j).doomed| && AssertSweepable(Classify(j).doomed[k].path).Some?
    then AssertSweepable(Classify(j).doomed[k].path).value else ""
  }

  lemma AcceptedIsSwept(j: Job, accepts: nat -> bool)
    ensures forall k: nat :: Accepted(j, accepts, k) ==> Classify(j).Sweep?
  {
    hide Classify;
  }

  lemma AcceptedIsAnswered(j: Job, accepts: nat -> bool, k: nat)
    requires Accepted(j, accepts, k)
    ensures AskedAndAnswered(PathsOf(Classify(j).doomed), accepts, DoomedPath(j, k), true)
  {
    DoomedIsSweepable(j, Classify(j).doomed[k]);
    hide Classify, AssertSweepable;
    assert PathsOf(Classify(j).doomed)[k] == Classify(j).doomed[k].path;
  }

  /** Every doomed object is sweepable: a judged job's delete call is never refused. */
  lemma PlanIsSafe(j: Job)
    requires Classify(j).Sweep?
    ensures !SomethingUnsafe(PathsOf(Classify(j).doomed))
  {
    hide AssertSweepable, Classify;
    var doomed := Classify(j).doomed;
    forall k | 0 <= k < |doomed| ensures AssertSweepable(PathsOf(doomed)[k]).Some? {
      DoomedIsSweepable(j, doomed[k]);
    }
  }

  lemma DoomedIsSweepable(j: Job, o: CkptObj)
    requires Classify(j).Sweep? && o in Classify(j).doomed
    ensures AssertSweepable(o.path).Some?
  {
    hide AssertSweepable, Kept, IsKept, Classify;
    SweepNeedsEvidence(j, o);
  }

  predicate SweptBySome(jobs: seq<Job>, p: string) { exists j :: j in jobs && SweptByRight(j, p) }

  lemma AskedByRight(j: Job, accepts: nat -> bool, p: string)
    requires Classify(j).Sweep? && AskedAndAnswered(PathsOf(Classify(j).doomed), accepts, p, true)
    ensures SweptByRight(j, p)
  {
    hide Classify, AssertSweepable, Kept, Evidence, IsKept;
    var doomed := Classify(j).doomed;
    var i :| 0 <= i < |doomed| && AssertSweepable(PathsOf(doomed)[i]) == Some(p);
    var o := doomed[i];
    assert o in doomed && o.path == PathsOf(doomed)[i];
    SweepNeedsEvidence(j, o);
    SizedExactly(j.objects, o);
    EvidenceReads(j);
  }

  lemma EvidenceReads(j: Job)
    requires Evidence(j)
    ensures forall o :: o in Sized(j.objects) ==> Below(o.path).Some?
  {
  }

  /** No two jobs list the same object. */
  ghost predicate Disjoint(jobs: seq<Job>) {
    forall i, k, o, q :: 0 <= i < |jobs| && 0 <= k < |jobs| && SameObject(jobs[i], o, jobs[k], q) ==> i == k
  }

  predicate SameObject(j: Job, o: CkptObj, l: Job, q: CkptObj) {
    && o in Sized(j.objects) && q in Sized(l.objects)
    && AssertSweepable(o.path).Some? && AssertSweepable(o.path) == AssertSweepable(q.path)
  }

  /** What a plan may remove never includes an object whose checkpoint its job keeps,
      under whatever spelling of its path it is listed. */
  lemma KeptObjectsSurvive(jobs: seq<Job>, i: nat, o: CkptObj, p: string)
    requires Disjoint(jobs) && i < |jobs| && Evidence(jobs[i])
    requires o in Sized(jobs[i].objects) && AssertSweepable(o.path) == Some(p) && IsKept(o, KeptOf(jobs[i]))
    ensures !SweptBySome(jobs, p)
  {
    hide AssertSweepable, Kept, Evidence, AnyKey;
    EvidenceReads(jobs[i]);
    forall k | 0 <= k < |jobs| ensures !SweptByRight(jobs[k], p) {
      forall q | q in Sized(jobs[k].objects) && AssertSweepable(q.path) == Some(p)
        ensures k == i && IsKept(q, KeptOf(jobs[i]))
      {
        assert SameObject(jobs[i], o, jobs[k], q);
        assert Below(q.path) == Below(o.path);
      }
    }
  }

  lemma AnswersGrow(paths: seq<string>, accepts: nat -> bool, i: nat, p: string)
    requires i < |paths| && AssertSweepable(paths[i]) == Some(p)
    ensures forall q, answer :: AskedAndAnswered(paths[..i + 1], accepts, q, answer) <==>
                                AskedAndAnswered(paths[..i], accepts, q, answer) || (q == p && answer == accepts(i))
  {
    hide AssertSweepable;
    assert paths[..i + 1] == paths[..i] + [paths[i]];
    forall q, answer ensures AskedAndAnswered(paths[..i], accepts, q, answer) || (q == p && answer == accepts(i))
                             ==> AskedAndAnswered(paths[..i + 1], accepts, q, answer) {
      if AskedAndAnswered(paths[..i], accepts, q, answer) {
        var j :| 0 <= j < i && AssertSweepable(paths[..i][j]) == Some(q) && accepts(j) == answer;
        assert paths[..i + 1][j] == paths[..i][j];
      } else if q == p && answer == accepts(i) {
        assert paths[..i + 1][i] == paths[i];
      }
    }
    forall q, answer ensures AskedAndAnswered(paths[..i + 1], accepts, q, answer)
                             ==> AskedAndAnswered(paths[..i], accepts, q, answer) || (q == p && answer == accepts(i)) {
      if AskedAndAnswered(paths[..i + 1], accepts, q, answer) {
        var j :| 0 <= j < i + 1 && AssertSweepable(paths[..i + 1][j]) == Some(q) && accepts(j) == answer;
        assert j < i ==> paths[..i][j] == paths[..i + 1][j];
      }
    }
  }
}
