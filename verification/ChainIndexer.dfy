/** The chain indexer: it processes the chain section by section in the background,
    while head events and reorganisations come in at any time. Each locked stretch of
    code is one step. */
module ChainIndexers {
  import opened Options
  import opened Headers

  /** A section being processed: so many of its headers have been taken in, the last of
      which is `lastHead`. */
  datatype Job = Job(section: nat, oldHead: Hash, done: nat, lastHead: Hash)

  /** From one hash the other is reached by n parent-linked headers. */
  ghost predicate Spans(from: Hash, to: Hash, n: nat)
    decreases n
  {
    if n == 0 then to == from else to.Digest? && Spans(from, to.of.parent, n - 1)
  }

  lemma {:induction false} SpansIsWalk(from: Hash, to: Hash, n: nat)
    requires Spans(from, to, n)
    ensures Walk(to, n) == from && forall k :: 0 <= k < n ==> Walk(to, k) != Zero
    decreases n
  {
    if n > 0 {
      SpansIsWalk(from, to.of.parent, n - 1);
      forall k | 0 <= k < n ensures Walk(to, k) != Zero {
        if k > 0 {
          assert Walk(to, k) == Walk(to.of.parent, k - 1);
        }
      }
    }
  }

  ghost function HeadBefore(heads: map<nat, Hash>, section: nat): Hash {
    if section > 0 && section - 1 in heads then heads[section - 1] else Zero
  }

  /** What the database holds at any moment: the heads of all counted sections, each one
      section away from the one before. Heads above the count do not matter. */
  ghost predicate Intact(count: nat, heads: map<nat, Hash>, size: nat) {
    forall i: nat :: i < count ==> Section(heads, i, size)
  }

  /** The head of a section is stored, one section away from the head before. */
  ghost predicate Section(heads: map<nat, Hash>, i: nat, size: nat) {
    i in heads && Spans(HeadBefore(heads, i), heads[i], size)
  }

  /** Heads from the count on can be written and deleted freely. */
  lemma IntactFrame(count: nat, heads: map<nat, Hash>, heads': map<nat, Hash>, size: nat)
    requires Intact(count, heads, size) && forall i: nat :: i < count && i in heads ==>
      i in heads' && heads'[i] == heads[i]
    ensures Intact(count, heads', size)
  {
    hide Spans;
    forall i: nat | i < count ensures Section(heads', i, size) {
      assert Section(heads, i, size);
      assert i > 0 ==> Section(heads, i - 1, size);
    }
  }

  class ChainIndexer {
    const sectionSize: nat
    const confirmsReq: nat
    // The database.
    var count: nat
    var heads: map<nat, Hash>
    // The indexer.
    var storedSections: nat
    var knownSections: nat
    var job: Option<Job>
    /** Whether a section below the one in the works has been rolled back. */
    ghost var overtaken: bool

    ghost predicate Valid()
      reads this
    {
      && 0 < sectionSize && Intact(count, heads, sectionSize) && storedSections == count && WORD - 1 !in heads
      && knownSections < WORD && storedSections < WORD
      && (job.Some? ==> Working(job.value))
    }

    ghost predicate Working(j: Job)
      reads this
    {
      && storedSections <= j.section < WORD - 1
      && j.done <= sectionSize && Spans(j.oldHead, j.lastHead, j.done)
      && (overtaken <==> storedSections < j.section)
      && (if overtaken then j.section - 1 !in heads && j.oldHead != Zero else j.oldHead == HeadBefore(heads, j.section))
    }

    /** Starts from whatever a database holds, also one whose last writes were cut short. */
    constructor (sectionSize: nat, confirmsReq: nat, count: nat, heads: map<nat, Hash>)
      requires 0 < sectionSize && Intact(count, heads, sectionSize) && WORD - 1 !in heads && count < WORD
      ensures Valid() && this.sectionSize == sectionSize && this.confirmsReq == confirmsReq
      ensures this.count == count == storedSections && this.heads == heads && knownSections == 0 && job == None
    {
      this.sectionSize, this.confirmsReq, this.count, this.heads := sectionSize, confirmsReq, count, heads;
      storedSections, knownSections, job, overtaken := count, 0, None, false;
    }

    ghost function View(): Snapshot
      reads this
    {
      Snapshot(heads, storedSections, knownSections, job)
    }

    function SectionHead(section: nat): Hash
      reads this
    {
      if section in heads then heads[section] else Zero
    }

    // Single database writes; each one leaves the database intact.

    method PutCount(sections: nat)
      requires Intact(count, heads, sectionSize) && Intact(sections, heads, sectionSize)
      modifies this`count
      ensures count == sections && Intact(count, heads, sectionSize)
    {
      count := sections;
    }

    method PutHead(section: nat, hash: Hash)
      requires Intact(count, heads, sectionSize) && count <= section
      modifies this`heads
      ensures heads == old(heads)[section := hash] && Intact(count, heads, sectionSize)
    {
      IntactFrame(count, heads, heads[section := hash], sectionSize);
      heads := heads[section := hash];
    }

    method DeleteHead(section: nat)
      requires Intact(count, heads, sectionSize) && count <= section
      modifies this`heads
      ensures heads == old(heads) - {section} && Intact(count, heads, sectionSize)
    {
      IntactFrame(count, heads, heads - {section}, sectionSize);
      heads := heads - {section};
    }

    /** Sets the number of valid sections, then removes the heads of the others. */
    method SetValidSections(sections: nat)
      requires Intact(count, heads, sectionSize) && Intact(sections, heads, sectionSize)
      requires storedSections == count
      modifies this`count, this`heads, this`storedSections
      ensures Intact(count, heads, sectionSize) && count == sections == storedSections
      ensures forall i :: i in heads <==> i in old(heads) && !(sections <= i < old(storedSections))
      ensures forall i :: i in heads ==> heads[i] == old(heads)[i]
    {
      hide Intact;
      PutCount(sections);
      while storedSections > sections
        invariant Intact(count, heads, sectionSize) && count == sections
        invariant storedSections <= old(storedSections)
          && (sections <= storedSections || storedSections == old(storedSections))
        invariant forall i :: i in heads <==> i in old(heads) && !(storedSections <= i < old(storedSections))
        invariant forall i :: i in heads ==> heads[i] == old(heads)[i]
        decreases storedSections
      {
        storedSections := storedSections - 1;
        DeleteHead(storedSections);
      }
      storedSections := sections;
    }

    /** A new head, or the common ancestor of a reorganisation. */
    method NewHead(head: nat, reorg: bool)
      requires Valid() && head < WORD - 1
      modifies this
      ensures Valid() && (job.Some? <==> old(job).Some?) && (job.Some? ==> job == old(job))
      ensures reorg ==>
        && knownSections == Min(old(knownSections), head / sectionSize)
        && storedSections == Min(old(storedSections), head / sectionSize)
      ensures !reorg ==>
        && storedSections == old(storedSections) && heads == old(heads)
        && knownSections == if head < confirmsReq then old(knownSections)
                            else Max(old(knownSections), (head + 1 - confirmsReq) / sectionSize)
      ensures forall i: nat :: i < storedSections ==> i in heads && i in old(heads) && heads[i] == old(heads)[i]
      ensures RolledBack(old(heads), heads, storedSections, old(storedSections))
      // a section in progress is given up at commit if something below it was changed, and only then
      ensures job.Some? ==>
        (overtaken <==> old(overtaken) || (reorg && head / sectionSize < job.value.section))
    {
      hide Intact, Spans;
      Present(count, heads, sectionSize);
      if reorg {
        var changed := head / sectionSize;
        Quotient(head, sectionSize);
        if changed < knownSections {
          knownSections := changed;
        }
        if changed < storedSections {
          RollBack(changed);
        }
      } else if head >= confirmsReq {
        var sections := (head + 1 - confirmsReq) / sectionSize;
        Quotient(head + 1 - confirmsReq, sectionSize);
        if sections > knownSections {
          knownSections := sections;
        }
      }
    }

    method RollBack(changed: nat)
      requires Valid() && changed < storedSections
      modifies this`count, this`heads, this`storedSections, this`overtaken
      ensures Valid() && storedSections == changed
      ensures forall i: nat :: i < storedSections ==> i in heads && i in old(heads) && heads[i] == old(heads)[i]
      ensures RolledBack(old(heads), heads, storedSections, old(storedSections))
      ensures job == old(job) && (overtaken <==> old(overtaken) || (job.Some? && changed < job.value.section))
    {
      hide Intact, Spans;
      Present(count, heads, sectionSize);
      IntactBelow(count, heads, sectionSize, changed);
      SetValidSections(changed);
      Present(count, heads, sectionSize);
      overtaken := overtaken || (job.Some? && changed < job.value.section);
    }

    /** The update loop picks the next section. */
    method Begin()
      requires Valid() && job.None? && knownSections > storedSections
      modifies this`job, this`overtaken
      ensures Valid() && !overtaken
      ensures var oldHead := HeadBefore(heads, storedSections); job == Some(Job(storedSections, oldHead, 0, oldHead))
    {
      var section := storedSections;
      var oldHead := if section > 0 then SectionHead(section - 1) else Zero;
      job := Some(Job(section, oldHead, 0, oldHead));
      overtaken := false;
    }

    /** The next canonical header of the section, which is whatever the chain says at this
        moment. It has to continue the last one. */
    method ProcessNext(header: Header) returns (ok: bool)
      requires Valid() && job.Some? && job.value.done < sectionSize
      modifies this`job, this`knownSections
      ensures Valid() && (ok <==> header.parent == old(job).value.lastHead)
      ensures ok ==>
        && knownSections == old(knownSections)
        && job == Some(old(job).value.(done := old(job).value.done + 1, lastHead := Digest(header)))
      ensures !ok ==> job == None && knownSections == storedSections
    {
      ok := header.parent == job.value.lastHead;
      if ok {
        job := Some(job.value.(done := job.value.done + 1, lastHead := Digest(header)));
      } else {
        Abandon();
      }
    }

    /** Processing fails: a header is missing, or the backend reports an error. */
    method Abandon()
      requires Valid()
      modifies this`job, this`knownSections
      ensures Valid() && job == None && knownSections == storedSections
    {
      job := None;
      knownSections := storedSections;
    }

    /** The backend cannot start on the section: all sections are given up. */
    method ResetFails()
      requires Valid() && job.Some?
      modifies this
      ensures Valid() && job == None && storedSections == knownSections == 0
      ensures RolledBack(old(heads), heads, 0, old(storedSections))
    {
      job := None;
      IntactBelow(count, heads, sectionSize, 0);
      SetValidSections(0);
      knownSections := storedSections;
    }

    /** A processed section is stored, unless a section below it was rolled back in the
        meantime. */
    method Commit() returns (stored: bool)
      requires Valid() && job.Some? && job.value.done == sectionSize
      modifies this
      ensures Valid() && job == None
      ensures stored <==> !old(overtaken)
      ensures stored ==>
        && old(storedSections) == old(job).value.section && storedSections == old(storedSections) + 1
        && heads == old(heads)[old(storedSections) := old(job).value.lastHead] && knownSections == old(knownSections)
        && Spans(HeadBefore(old(heads), old(storedSections)), heads[old(storedSections)], sectionSize)
      ensures !stored ==> storedSections == old(storedSections) == knownSections && heads == old(heads)
    {
      var j := job.value;
      job := None;
      stored := j.oldHead == SectionHead(Prev(j.section));
      if stored {
        Append(j.lastHead);
      } else {
        knownSections := storedSections;
      }
    }

    method TakeStep(s: Step)
      requires Valid() && (s.HeadStep? ==> s.head < WORD - 1)
      modifies this
      ensures Valid() && Stepped(old(View()), s, View(), sectionSize, confirmsReq)
    {
      hide Intact, Spans;
      match s
      case HeadStep(head, reorg) => NewHead(head, reorg);
      case BeginStep =>
        if job.None? && knownSections > storedSections {
          Begin();
        }
      case HeaderStep(header) =>
        if job.Some? && job.value.done < sectionSize {
          var _ := ProcessNext(header);
        }
      case AbandonStep =>
        if job.Some? {
          Abandon();
        }
      case ResetFailsStep =>
        if job.Some? {
          ResetFails();
        }
      case CommitStep =>
        if job.Some? && job.value.done == sectionSize {
          var _ := Commit();
        }
    }

    /** Any interleaving of head events with the steps of the update loop, with the states passed
        through. */
    method Run(steps: seq<Step>) returns (ghost trace: seq<Snapshot>)
      requires Valid() && forall s :: s in steps && s.HeadStep? ==> s.head < WORD - 1
      modifies this
      ensures Valid()
      ensures |trace| == |steps| + 1 && trace[0] == old(View()) && trace[|steps|] == View()
        && forall k :: 0 <= k < |steps| ==> Stepped(trace[k], steps[k], trace[k + 1], sectionSize, confirmsReq)
      ensures forall i: nat :: i < storedSections ==> i in heads && Walk(heads[i], sectionSize) == HeadBefore(heads, i)
    {
      hide Intact, Spans, Stepped;
      trace := [View()];
      for k := 0 to |steps|
        invariant Valid() && |trace| == k + 1 && trace[0] == old(View()) && trace[k] == View()
        invariant forall i :: 0 <= i < k ==> Stepped(trace[i], steps[i], trace[i + 1], sectionSize, confirmsReq)
      {
        TakeStep(steps[k]);
        trace := trace + [View()];
      }
      IntactWalks(count, heads, sectionSize);
    }

    /** Stores the head of the next section: first the head, then the count. */
    method Append(hash: Hash)
      requires 0 < sectionSize && Intact(count, heads, sectionSize) && storedSections == count
      requires Spans(HeadBefore(heads, count), hash, sectionSize)
      modifies this`count, this`heads, this`storedSections
      ensures Intact(count, heads, sectionSize) && count == storedSections == old(count) + 1
      ensures heads == old(heads)[old(count) := hash]
    {
      hide Spans;
      PutHead(storedSections, hash);
      assert Section(heads, storedSections, sectionSize);
      SetValidSections(storedSections + 1);
    }
  }

  /** A reorganisation inside the section that is being processed is not noticed: the section is
      stored with headers from before it. Here `fork` is the common ancestor, so that `second` is
      no longer canonical when it is stored. */
  method ReorgInsideIsMissed(fork: Header, second: Header) returns (c: ChainIndexer)
    requires fork.parent.Zero? && second.parent == Digest(fork)
    ensures c.Valid() && c.storedSections == 1 && 0 in c.heads && c.heads[0] == Digest(second)
    ensures c.knownSections == 0
  {
    hide Intact, Spans;
    NoSections(2);
    c := new ChainIndexer(2, 0, 0, map[]);
    c.NewHead(1, false);
    c.Begin();
    var _ := c.ProcessNext(fork);
    var _ := c.ProcessNext(second);
    c.NewHead(0, true);
    var stored := c.Commit();
  }

  lemma NoSections(size: nat)
    ensures Intact(0, map[], size)
  {
  }

  datatype Step =
    | HeadStep(head: nat, reorg: bool)
    | BeginStep
    | HeaderStep(header: Header)
    | AbandonStep
    | ResetFailsStep
    | CommitStep

  /** The state of the indexer and its database. */
  datatype Snapshot = Snapshot(heads: map<nat, Hash>, stored: nat, known: nat, job: Option<Job>)

  /** The heads of the sections from n to m are gone, and nothing else. */
  ghost predicate RolledBack(heads: map<nat, Hash>, heads': map<nat, Hash>, n: nat, m: nat) {
    && (forall i :: i in heads' <==> i in heads && !(n <= i < m))
    && (forall i :: i in heads' ==> heads'[i] == heads[i])
  }

  /** What one step does. A reorganisation rolls back to the section of the common ancestor; a new
      head makes known the sections it confirms; a section is stored unless one below it was
      rolled back since it was begun. */
  ghost predicate Stepped(s: Snapshot, step: Step, t: Snapshot, size: nat, confirms: nat)
    requires size > 0
  {
    match step
    case HeadStep(head, reorg) =>
      && t.job == s.job && RolledBack(s.heads, t.heads, t.stored, s.stored)
      && t.stored == (if reorg && head / size < s.stored then head / size else s.stored)
      && t.known == (if reorg && head / size < s.known then head / size
                     else if !reorg && head >= confirms && (head + 1 - confirms) / size > s.known
                     then (head + 1 - confirms) / size else s.known)
    case BeginStep =>
      if s.job.None? && s.known > s.stored then
        t == s.(job := Some(Job(s.stored, HeadBefore(s.heads, s.stored), 0, HeadBefore(s.heads, s.stored))))
      else t == s
    case HeaderStep(h) =>
      if s.job.None? || s.job.value.done >= size then t == s
      else if h.parent == s.job.value.lastHead then
        t == s.(job := Some(s.job.value.(done := s.job.value.done + 1, lastHead := Digest(h))))
      else t == s.(job := None, known := s.stored)
    case AbandonStep => t == if s.job.Some? then s.(job := None, known := s.stored) else s
    case ResetFailsStep =>
      if s.job.None? then t == s
      else t.job == None && t.stored == 0 && t.known == 0 && RolledBack(s.heads, t.heads, 0, s.stored)
    case CommitStep =>
      if s.job.None? || s.job.value.done != size then t == s
      else if s.stored == s.job.value.section then
        t == s.(job := None, stored := s.stored + 1, heads := s.heads[s.stored := s.job.value.lastHead])
      else t == s.(job := None, known := s.stored)
  }

  function Min(a: nat, b: nat): nat { if a <= b then a else b }

  function Max(a: nat, b: nat): nat { if a >= b then a else b }

  lemma Present(count: nat, heads: map<nat, Hash>, size: nat)
    requires Intact(count, heads, size)
    ensures forall i: nat :: i < count ==> i in heads
    ensures size > 0 ==> forall i: nat :: i < count ==> heads[i] != Zero
  {
    forall i: nat | i < count ensures i in heads && (size > 0 ==> heads[i] != Zero) {
      assert Section(heads, i, size);
    }
  }

  lemma IntactWalks(count: nat, heads: map<nat, Hash>, size: nat)
    requires Intact(count, heads, size)
    ensures forall i: nat :: i < count ==> i in heads && Walk(heads[i], size) == HeadBefore(heads, i)
  {
    forall i: nat | i < count ensures i in heads && Walk(heads[i], size) == HeadBefore(heads, i) {
      assert Section(heads, i, size);
      SpansIsWalk(HeadBefore(heads, i), heads[i], size);
    }
  }

  lemma IntactBelow(count: nat, heads: map<nat, Hash>, size: nat, n: nat)
    requires Intact(count, heads, size) && n <= count
    ensures Intact(n, heads, size)
  {
  }

  lemma Quotient(n: nat, d: nat)
    requires d > 0
    ensures 0 <= n / d <= n
  {
    var q := n / d;
    assert n == q * d + n % d;
    AtLeast(q, d);
  }

  lemma AtLeast(q: nat, d: nat)
    requires d > 0
    ensures q * d >= q
  {
  }
}
