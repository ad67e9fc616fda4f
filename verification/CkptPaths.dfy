/** Object paths of the retention sweep: which may be touched at all, and which
    checkpoint each belongs to (tools/vast/ckpt_retention.py). */
module CkptPaths {
  import opened Money

  const CKPT_COMPLETE_SUFFIX := ".complete.json"
  const STEP_PREFIX := "checkpoint-"

  // ---- strings ---------------------------------------------------------------

  /** `s.split("/")`. */
  function Split(s: string): (parts: seq<string>)
    ensures |parts| > 0
  {
    if s == "" then [""]
    else
      var rest := Split(s[1..]);
      if s[0] == '/' then [""] + rest else [[s[0]] + rest[0]] + rest[1..]
  }

  /** `s.lstrip("/")`. */
  function LStrip(s: string): string {
    if s != "" && s[0] == '/' then LStrip(s[1..]) else s
  }

  lemma {:induction false} FirstSegment(word: string, path: string)
    requires '/' !in word && word + "/" <= path
    ensures Split(path)[0] == word
  {
    if word != "" {
      assert path[0] == word[0];
      assert word[1..] + "/" <= path[1..];
      FirstSegment(word[1..], path[1..]);
      assert [word[0]] + word[1..] == word;
    }
  }

  /** The segments put together again. */
  function Join(parts: seq<string>): string {
    if parts == [] then "" else if |parts| == 1 then parts[0] else parts[0] + "/" + Join(parts[1..])
  }

  /** Splitting loses nothing and leaves no separator inside a segment. */
  lemma SplitJoins(s: string)
    ensures Join(Split(s)) == s
    ensures forall i :: 0 <= i < |Split(s)| ==> '/' !in Split(s)[i]
  {
    JoinUndoesSplit(s);
    SegmentsAreWhole(s);
  }

  lemma {:induction false} JoinUndoesSplit(s: string)
    ensures Join(Split(s)) == s
  {
    if s != "" {
      var rest := Split(s[1..]);
      JoinUndoesSplit(s[1..]);
      assert s == [s[0]] + s[1..];
      if s[0] == '/' {
        assert ([""] + rest)[1..] == rest;
      } else {
        JoinPrefixed(s[0], rest);
      }
    }
  }

  lemma JoinPrefixed(c: char, parts: seq<string>)
    requires parts != []
    ensures Join([[c] + parts[0]] + parts[1..]) == [c] + Join(parts)
  {
    var longer := [[c] + parts[0]] + parts[1..];
    assert longer[1..] == parts[1..];
  }

  lemma {:induction false} SegmentsAreWhole(s: string)
    ensures forall i :: 0 <= i < |Split(s)| ==> '/' !in Split(s)[i]
  {
    if s != "" {
      SegmentsAreWhole(s[1..]);
    }
  }

  /** Stripping takes the leading separators and nothing else. */
  lemma {:induction false} LStripExactly(s: string) returns (k: nat)
    ensures k <= |s| && LStrip(s) == s[k..]
    ensures forall i :: 0 <= i < k ==> s[i] == '/'
    ensures k < |s| ==> s[k] != '/'
  {
    if s != "" && s[0] == '/' {
      k := LStripExactly(s[1..]);
      assert s[1..][k..] == s[k + 1..];
      assert forall i :: 1 <= i < k + 1 ==> s[i] == s[1..][i - 1];
      k := k + 1;
    } else {
      k := 0;
    }
  }

  predicate EndsWith(s: string, suffix: string) { |suffix| <= |s| && s[|s| - |suffix|..] == suffix }

  predicate Digits(s: string) { s != "" && forall i :: 0 <= i < |s| ==> '0' <= s[i] <= '9' }

  function Value(s: string): nat
    requires forall i :: 0 <= i < |s| ==> '0' <= s[i] <= '9'
  {
    if s == "" then 0 else 10 * Value(s[..|s| - 1]) + (s[|s| - 1] as int - '0' as int)
  }

  /** The decimal numeral of a number. */
  function Decimal(n: nat): string {
    if n < 10 then [(n + '0' as int) as char] else Decimal(n / 10) + [(n % 10 + '0' as int) as char]
  }

  /** A step's number is the one its name spells. */
  lemma {:induction false} ValueOfDecimal(n: nat)
    ensures Digits(Decimal(n)) && Value(Decimal(n)) == n
  {
    if n < 10 {
      assert Decimal(n)[..0] == "";
    } else {
      ValueOfDecimal(n / 10);
      assert Decimal(n)[..|Decimal(n)| - 1] == Decimal(n / 10);
    }
  }

  // ---- what may be deleted ---------------------------------------------------

  /** The stripped path, when it is an object under `jobs/<JOB_ID>/checkpoints/`. */
  function AssertSweepable(path: string): Option<string> {
    var p := LStrip(path);
    if p == "" || p[|p| - 1] == '/' then None
    else
      var parts := Split(p);
      if ".." in parts || "." in parts then None
      else if !("jobs/" <= p) then None
      else if |parts| < 4 || parts[2] != "checkpoints" || parts[1] == "" then None
      else Some(p)
  }

  /** Only intermediate checkpoints pass: the first segments are `jobs`, a job id
      and `checkpoints`, there is an object below them, and no segment can climb
      out again; in particular nothing under the published `checkpoints/` does. */
  lemma SweepableIsIntermediate(path: string)
    requires AssertSweepable(path).Some?
    ensures var parts := Split(AssertSweepable(path).value);
            && |parts| >= 4 && parts[0] == "jobs" && parts[1] != "" && parts[2] == "checkpoints"
            && ".." !in parts && "." !in parts
            && !("checkpoints/" <= AssertSweepable(path).value)
  {
    var p := AssertSweepable(path).value;
    FirstSegment("jobs", p);
    assert p[0] == 'j';
  }

  /** And every such path passes, whatever separators lead it: exactly these are sweepable. */
  lemma SweepableExactly(path: string)
    ensures var p := LStrip(path);
            AssertSweepable(path) ==
              if && p != "" && p[|p| - 1] != '/' && "jobs/" <= p
                 && |Split(p)| >= 4 && Split(p)[1] != "" && Split(p)[2] == "checkpoints"
                 && ".." !in Split(p) && "." !in Split(p)
              then Some(p) else None
  {
  }

  // ---- which checkpoint an object belongs to -----------------------------------

  /** `root` is the directory above the step, as segments. */
  datatype Key = Key(root: seq<string>, step: nat)

  /** The segments below `jobs/<JOB_ID>/checkpoints/`. */
  function Below(path: string): Option<seq<string>> {
    match AssertSweepable(path)
    case None => None
    case Some(p) => Some(Split(p)[3..])
  }

  function StepOf(segment: string): Option<nat> {
    if STEP_PREFIX <= segment && Digits(segment[|STEP_PREFIX|..])
    then Some(Value(segment[|STEP_PREFIX|..])) else None
  }

  /** The rightmost step segment wins, at whatever depth. */
  function CkptKey(parts: seq<string>): Option<Key> {
    if parts == [] then None
    else
      var n := |parts| - 1;
      if StepOf(parts[n]).Some? then Some(Key(parts[..n], StepOf(parts[n]).value)) else CkptKey(parts[..n])
  }

  /** A completion marker: a sibling file of the step directory. */
  function MarkerKey(parts: seq<string>): Option<Key> {
    if parts == [] || !EndsWith(parts[|parts| - 1], CKPT_COMPLETE_SUFFIX) then None
    else
      var name := parts[|parts| - 1];
      var step := StepOf(name[..|name| - |CKPT_COMPLETE_SUFFIX|]);
      if step.Some? then Some(Key(parts[..|parts| - 1], step.value)) else None
  }

  function AnyKey(parts: seq<string>): Option<Key> {
    if CkptKey(parts).Some? then CkptKey(parts) else MarkerKey(parts)
  }

  lemma CkptKeyOfDeeper(dir: seq<string>, rest: seq<string>)
    requires forall i :: 0 <= i < |rest| ==> StepOf(rest[i]).None?
    ensures CkptKey(dir + rest) == CkptKey(dir)
  {
    if rest == [] {
      assert dir + rest == dir;
    } else {
      var n := |rest| - 1;
      assert (dir + rest)[..|dir + rest| - 1] == dir + rest[..n];
      CkptKeyOfDeeper(dir, rest[..n]);
    }
  }

  lemma CkptKeyIsAbove(parts: seq<string>)
    ensures CkptKey(parts).Some? ==> |CkptKey(parts).value.root| < |parts|
  {
  }

  /** An object inside `dir/checkpoint-N/` and the marker beside that directory
      have one key, and so are kept or swept together, exactly when no directory
      above them is itself named like a step. */
  lemma MarkerTravelsWithItsCheckpoint(dir: seq<string>, digits: string, rest: seq<string>)
    requires Digits(digits)
    requires forall i :: 0 <= i < |rest| ==> StepOf(rest[i]).None?
    ensures var member := dir + [STEP_PREFIX + digits] + rest;
            var marker := dir + [STEP_PREFIX + digits + CKPT_COMPLETE_SUFFIX];
            && AnyKey(member) == Some(Key(dir, Value(digits)))
            && MarkerKey(marker) == Some(Key(dir, Value(digits)))
            && (AnyKey(marker) == AnyKey(member) <==> CkptKey(dir).None?)
  {
    hide Value, Digits;
    var segment := STEP_PREFIX + digits;
    var name := segment + CKPT_COMPLETE_SUFFIX;
    assert segment[|STEP_PREFIX|..] == digits;
    CkptKeyOfDeeper(dir + [segment], rest);
    assert (dir + [segment])[..|dir|] == dir;
    assert name[..|name| - |CKPT_COMPLETE_SUFFIX|] == segment;
    assert StepOf(name).None? by { MarkerIsNoStep(digits); }
    CkptKeyOfDeeper(dir, [name]);
    assert (dir + [name])[..|dir|] == dir;
    CkptKeyIsAbove(dir);
  }

  lemma MarkerIsNoStep(digits: string)
    ensures StepOf(STEP_PREFIX + digits + CKPT_COMPLETE_SUFFIX).None?
  {
    var name := STEP_PREFIX + digits + CKPT_COMPLETE_SUFFIX;
    var tail := name[|STEP_PREFIX|..];
    assert tail == digits + CKPT_COMPLETE_SUFFIX;
    assert tail[|digits|] == '.';
  }
}
