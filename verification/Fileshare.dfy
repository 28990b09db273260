/** Fileshares of the C++ client: `CreateFileshare` and the copy-then-rename
    `CommitFileChanges`, over a file system of regular files. Everything another isolate
    could observe is an effect: the disk after each change, and each published event. Copying
    follows sections [fs.op.copy] and [fs.op.copy.file] of ISO C++ with no copy options: it
    fails if the source is missing or the target exists, and it may fail half-way. */
module Fileshare {
  import opened Messages

  type Path = string
  type Content = Bytes
  type Disk = map<Path, Content>

  const STAGING := ".staging"
  const TMP := ".tmp"

  datatype Effect = Changed(disk: Disk) | Published(handle: string)

  /** What the environment does to one commit. A failing copy may leave a first part of the
      target behind, or no target at all. */
  datatype Fault = NoFault | CopyFails(left: Option<nat>) | RenameFails | PublishFails

  datatype CommitStatus = Committed | BadSuffix | EmptyPath | CopyFailed | RenameFailed | PublishFailed

  datatype Outcome = Outcome(status: CommitStatus, effects: seq<Effect>)

  function Lookup(d: Disk, p: Path): Option<Content> {
    if p in d then Some(d[p]) else None
  }

  predicate EndsWith(s: string, suffix: string) {
    |suffix| <= |s| && s[|s| - |suffix|..] == suffix
  }

  // ----- std::filesystem::path, on generic format names -----

  function FilenameStart(p: Path): (i: nat)
    ensures i <= |p|
    ensures forall k | i <= k < |p| :: p[k] != '/'
    ensures i == 0 || p[i - 1] == '/'
  {
    if p == "" then 0
    else if p[|p| - 1] == '/' then |p|
    else FilenameStart(p[..|p| - 1])
  }

  function Filename(p: Path): string {
    p[FilenameStart(p)..]
  }

  function StripSeparators(p: Path): Path {
    if p != "" && p[|p| - 1] == '/' then StripSeparators(p[..|p| - 1]) else p
  }

  function ParentPath(p: Path): Path {
    var d := p[..FilenameStart(p)];
    if StripSeparators(d) == "" then d else StripSeparators(d)
  }

  // ----- The operations -----

  function SharedPath(handle: string): Path {
    "/" + handle + "/file"
  }

  function StagingPath(handle: string): Path {
    SharedPath(handle) + STAGING
  }

  /** The names spelled out. */
  lemma FileNames(h: string)
    ensures SharedPath(h) == ['/'] + h + "/file"
    ensures StagingPath(h) == ['/'] + h + "/file.staging"
    ensures SharedPath(h) + TMP == ['/'] + h + "/file.tmp"
  {
    assert "/file" + STAGING == "/file.staging" && "/file" + TMP == "/file.tmp";
  }

  /** The two files are created, or truncated when they exist. */
  function Create(d: Disk, handle: string): seq<Effect> {
    var d1 := d[SharedPath(handle) := []];
    [Changed(d1), Changed(d1[StagingPath(handle) := []])]
  }

  /** After creation both files are there and empty, and nothing else has changed; a commit can
      follow exactly when no .tmp was in the way before. */
  lemma CreateEffect(d: Disk, handle: string)
    ensures var e := After(d, Create(d, handle));
            && Lookup(e, SharedPath(handle)) == Some([]) && Lookup(e, StagingPath(handle)) == Some([])
            && (forall p | p != SharedPath(handle) && p != StagingPath(handle) :: Lookup(e, p) == Lookup(d, p))
            && (Ready(e, handle) <==> SharedPath(handle) + TMP !in d)
            && (forall i | 0 <= i < |Create(d, handle)| :: Create(d, handle)[i].Changed?)
            && (Commit(e, StagingPath(handle), NoFault).status == Committed <==> SharedPath(handle) + TMP !in d)
  {
    var e := After(d, Create(d, handle));
    SuffixesDiffer(SharedPath(handle));
    assert SharedPath(handle) + TMP != StagingPath(handle) && SharedPath(handle) + TMP != SharedPath(handle);
    assert Lookup(e, SharedPath(handle) + TMP) == Lookup(d, SharedPath(handle) + TMP);
    CommitSucceedsIff(e, StagingPath(handle), NoFault);
  }

  /** A copy in progress: the target holds a growing first part of the content. */
  function Copying(d: Disk, target: Path, content: Content, n: nat): (effects: seq<Effect>)
    requires n <= |content|
    ensures |effects| == n + 1 && effects[n] == Changed(d[target := content[..n]])
  {
    seq(n + 1, i requires 0 <= i < n + 1 => Changed(d[target := content[..i]]))
  }

  function Commit(d: Disk, staging: Path, fault: Fault): Outcome {
    if !EndsWith(staging, STAGING) then Outcome(BadSuffix, []) else
    var share := staging[..|staging| - |STAGING|];
    if share == "" then Outcome(EmptyPath, []) else
    var tmp := share + TMP;
    if staging !in d || tmp in d then Outcome(CopyFailed, []) else
    var content := d[staging];
    if fault.CopyFails? then
      Outcome(CopyFailed, if fault.left.None? then [] else Copying(d, tmp, content, Min(fault.left.value, |content|)))
    else
    var copied := Copying(d, tmp, content, |content|);
    if fault.RenameFails? then Outcome(RenameFailed, copied) else
    var renamed := (d - {tmp})[share := content];
    Outcome(if fault.PublishFails? then PublishFailed else Committed,
            copied + [Changed(renamed), Published(Filename(ParentPath(share)))])
  }

  function Min(a: nat, b: nat): nat {
    if a < b then a else b
  }

  /** The disk after some effects. */
  function After(d: Disk, effects: seq<Effect>): Disk {
    if effects == [] then d
    else var last := effects[|effects| - 1];
         if last.Changed? then last.disk else After(d, effects[..|effects| - 1])
  }

  // ----- One commit -----

  /** A commit succeeds exactly when the path is a staging path, the staging file exists, no
      .tmp was left behind, and the environment does not interfere. Otherwise the status tells
      the first of these that fails. */
  lemma CommitSucceedsIff(d: Disk, staging: Path, fault: Fault)
    ensures Commit(d, staging, fault).status == Committed <==>
              && EndsWith(staging, STAGING) && staging != STAGING
              && staging in d && staging[..|staging| - |STAGING|] + TMP !in d
              && fault == NoFault
    ensures Commit(d, staging, fault).status ==
            if !EndsWith(staging, ".staging") then BadSuffix
            else if staging == ".staging" then EmptyPath
            else if staging !in d || staging[..|staging| - 8] + ".tmp" in d then CopyFailed
            else match fault
                 case NoFault => Committed
                 case CopyFails(_) => CopyFailed
                 case RenameFails => RenameFailed
                 case PublishFails => PublishFailed
  {
    if EndsWith(staging, STAGING) && staging[..|staging| - |STAGING|] == "" {
      assert staging == staging[..|staging| - |STAGING|] + staging[|staging| - |STAGING|..];
    }
  }

  lemma EndsWithLast(s: string, suffix: string)
    ensures suffix != "" && EndsWith(s, suffix) ==> s != "" && s[|s| - 1] == suffix[|suffix| - 1]
  {
    if suffix != "" && EndsWith(s, suffix) {
      assert s[|s| - |suffix|..][|suffix| - 1] == s[|s| - 1];
    }
  }

  lemma SuffixesDiffer(share: Path)
    ensures EndsWith(share + STAGING, STAGING) && (share + STAGING)[..|share + STAGING| - |STAGING|] == share
    ensures share + STAGING != share + TMP && share + STAGING != share && share + TMP != share
    ensures !EndsWith(share + TMP, STAGING)
  {
    EndsWithLast(share + TMP, STAGING);
    EndsWithLast(share + STAGING, TMP);
    assert (share + TMP)[|share| + 3] == 'p' && (share + STAGING)[|share| + 7] == 'g';
  }

  /** Staging is intact after any commit. A commit that got past the rename leaves the whole
      snapshot shared, no .tmp and every other file as it was, and publishes once, last,
      after the rename. One that did not leaves every file but .tmp alone and publishes
      nothing. */
  lemma CommitEffect(d: Disk, share: Path, fault: Fault)
    requires share != ""
    ensures var o := Commit(d, share + STAGING, fault);
            var e := After(d, o.effects);
            && Lookup(e, share + STAGING) == Lookup(d, share + STAGING)
            && (forall p | p != share && p != share + TMP :: Lookup(e, p) == Lookup(d, p))
            && (if o.status == Committed || o.status == PublishFailed then
                  && Lookup(e, share) == Lookup(d, share + STAGING) != None
                  && share + TMP !in e
                  && |o.effects| >= 2
                  && o.effects[|o.effects| - 2] == Changed(e)
                  && o.effects[|o.effects| - 1] == Published(Filename(ParentPath(share)))
                  && (forall i | 0 <= i < |o.effects| - 1 :: o.effects[i].Changed?)
                else
                  && Lookup(e, share) == Lookup(d, share)
                  && (forall i | 0 <= i < |o.effects| :: o.effects[i].Changed?))
  {
    SuffixesDiffer(share);
    var o := Commit(d, share + STAGING, fault);
    if o.status == Committed || o.status == PublishFailed {
      var n := |o.effects|;
      assert After(d, o.effects) == After(d, o.effects[..n - 1]) == o.effects[n - 2].disk;
    }
  }

  /** Every state of the disk during one commit shows the shared file as it was or, once
      renamed, the complete snapshot of the staging file; other files but .tmp never change. */
  lemma CommitStates(d: Disk, share: Path, fault: Fault, p: Path, i: nat)
    requires share != "" && p != share + TMP
    requires i < |Commit(d, share + STAGING, fault).effects|
    requires Commit(d, share + STAGING, fault).effects[i].Changed?
    ensures var now := Commit(d, share + STAGING, fault).effects[i].disk;
            Lookup(now, p) == Lookup(d, p) || (p == share && Lookup(now, p) == Lookup(d, share + STAGING) != None)
  {
    SuffixesDiffer(share);
  }

  // ----- Runs -----

  /** What a client does, one thing after the other. An application writes only to staging
      files; a slow write is several such operations. */
  datatype Op =
    | CreateShare(handle: string)
    | WriteStaging(share: Path, content: Content)
    | CommitShare(staging: Path, fault: Fault)

  function Effects(d: Disk, op: Op): seq<Effect> {
    match op
    case CreateShare(h) => Create(d, h)
    case WriteStaging(share, c) => [Changed(d[share + STAGING := c])]
    case CommitShare(staging, fault) => Commit(d, staging, fault).effects
  }

  function Run(d: Disk, ops: seq<Op>): seq<Effect>
    decreases |ops|
  {
    if ops == [] then []
    else Effects(d, ops[0]) + Run(After(d, Effects(d, ops[0])), ops[1..])
  }

  function DiskAfter(d: Disk, ops: seq<Op>): Disk
    decreases |ops|
  {
    if ops == [] then d else DiskAfter(After(d, Effects(d, ops[0])), ops[1..])
  }

  /** The contents a reader of the shared file may see: what it was, empty once created, and
      the whole staging file at the start of each commit. */
  function Snapshots(d: Disk, ops: seq<Op>, handle: string): set<Option<Content>>
    decreases |ops|
  {
    if ops == [] then {Lookup(d, SharedPath(handle))} else
    {Lookup(d, SharedPath(handle))}
    + (if ops[0].CommitShare? && ops[0].staging == StagingPath(handle) then {Lookup(d, StagingPath(handle))} else {})
    + (if ops[0].CreateShare? && ops[0].handle == handle then {Some([])} else {})
    + Snapshots(After(d, Effects(d, ops[0])), ops[1..], handle)
  }

  lemma SharedPathEnds(h: string)
    ensures !EndsWith(SharedPath(h), STAGING) && !EndsWith(SharedPath(h), TMP)
    ensures SharedPath(h)[|SharedPath(h)| - 1] == 'e'
  {
    var p := SharedPath(h);
    assert p[|p| - 1] == 'e';
    EndsWithLast(p, STAGING);
    EndsWithLast(p, TMP);
  }

  lemma SharedPathInjective(g: string, h: string)
    ensures SharedPath(g) == SharedPath(h) ==> g == h
  {
    if SharedPath(g) == SharedPath(h) {
      assert g == SharedPath(g)[1..|SharedPath(g)| - 5];
      assert h == SharedPath(h)[1..|SharedPath(h)| - 5];
    }
  }

  lemma CreateStates(d: Disk, h: string, handle: string, i: nat)
    requires i < |Create(d, h)| && Create(d, h)[i].Changed?
    ensures var now := Lookup(Create(d, h)[i].disk, SharedPath(handle));
            now == Lookup(d, SharedPath(handle)) || (h == handle && now == Some([]))
  {
    SharedPathEnds(handle);
    SharedPathInjective(h, handle);
    SuffixesDiffer(SharedPath(h));
  }

  lemma CommitShareStates(d: Disk, staging: Path, fault: Fault, handle: string, i: nat)
    requires i < |Commit(d, staging, fault).effects| && Commit(d, staging, fault).effects[i].Changed?
    ensures var now := Lookup(Commit(d, staging, fault).effects[i].disk, SharedPath(handle));
            || now == Lookup(d, SharedPath(handle))
            || (staging == StagingPath(handle) && now == Lookup(d, StagingPath(handle)))
  {
    SharedPathEnds(handle);
    var share := staging[..|staging| - |STAGING|];
    assert staging == share + STAGING;
    assert EndsWith(share + TMP, TMP);
    CommitStates(d, share, fault, SharedPath(handle), i);
  }

  /** One operation shows a reader of the shared file what it was or the new snapshot. */
  lemma OpStates(d: Disk, op: Op, handle: string, i: nat)
    requires i < |Effects(d, op)| && Effects(d, op)[i].Changed?
    ensures var now := Lookup(Effects(d, op)[i].disk, SharedPath(handle));
            || now == Lookup(d, SharedPath(handle))
            || (op.CommitShare? && op.staging == StagingPath(handle) && now == Lookup(d, StagingPath(handle)))
            || (op.CreateShare? && op.handle == handle && now == Some([]))
  {
    match op
    case CreateShare(h) =>
      CreateStates(d, h, handle, i);
    case WriteStaging(share, c) =>
      SharedPathEnds(handle);
      SuffixesDiffer(share);
    case CommitShare(staging, fault) =>
      CommitShareStates(d, staging, fault, handle, i);
  }

  lemma {:induction false} AfterIsAState(d: Disk, effects: seq<Effect>)
    ensures After(d, effects) == d || exists i :: 0 <= i < |effects| && effects[i] == Changed(After(d, effects))
  {
    if effects == [] {
    } else if effects[|effects| - 1].Changed? {
      assert effects[|effects| - 1] == Changed(After(d, effects));
    } else {
      AfterIsAState(d, effects[..|effects| - 1]);
      if After(d, effects) != d {
        var i :| 0 <= i < |effects| - 1 && effects[..|effects| - 1][i] == Changed(After(d, effects));
        assert effects[i] == Changed(After(d, effects));
      }
    }
  }

  /** At every intermediate step of any serial run, on any number of shares and with any
      failures, a reader of the shared file sees the old content or a complete snapshot. */
  lemma {:induction false} ReadersSeeSnapshots(d: Disk, ops: seq<Op>, handle: string, i: nat)
    requires i < |Run(d, ops)| && Run(d, ops)[i].Changed?
    ensures Lookup(Run(d, ops)[i].disk, SharedPath(handle)) in Snapshots(d, ops, handle)
    decreases |ops|
  {
    var first := Effects(d, ops[0]);
    var e := After(d, first);
    if i < |first| {
      OpStates(d, ops[0], handle, i);
    } else {
      ReadersSeeSnapshots(e, ops[1..], handle, i - |first|);
    }
  }

  /** Which operation of a run made its i-th effect. */
  function Owner(d: Disk, ops: seq<Op>, i: nat): (k: nat)
    requires i < |Run(d, ops)|
    ensures k < |ops|
    decreases |ops|
  {
    var first := Effects(d, ops[0]);
    if i < |first| then 0 else 1 + Owner(After(d, first), ops[1..], i - |first|)
  }

  lemma CommitShows(d: Disk, handle: string, fault: Fault, i: nat)
    requires i < |Commit(d, StagingPath(handle), fault).effects|
    requires Commit(d, StagingPath(handle), fault).effects[i].Changed?
    ensures var o := Commit(d, StagingPath(handle), fault);
            var now := Lookup(o.effects[i].disk, SharedPath(handle));
            now == Lookup(d, SharedPath(handle)) || now == Lookup(After(d, o.effects), SharedPath(handle))
  {
    var share := SharedPath(handle);
    SuffixesDiffer(share);
    CommitStates(d, share, fault, share, i);
    CommitEffect(d, share, fault);
  }

  lemma CreateShows(d: Disk, h: string, handle: string, i: nat)
    requires i < |Create(d, h)| && Create(d, h)[i].Changed?
    ensures var now := Lookup(Create(d, h)[i].disk, SharedPath(handle));
            now == Lookup(d, SharedPath(handle)) || now == Lookup(After(d, Create(d, h)), SharedPath(handle))
  {
    CreateStates(d, h, handle, i);
    SuffixesDiffer(SharedPath(handle));
    assert After(d, Create(d, h)) == Create(d, h)[1].disk;
  }

  lemma OpShowsBeforeOrAfter(d: Disk, op: Op, handle: string, i: nat)
    requires i < |Effects(d, op)| && Effects(d, op)[i].Changed?
    ensures var now := Lookup(Effects(d, op)[i].disk, SharedPath(handle));
            now == Lookup(d, SharedPath(handle)) || now == Lookup(After(d, Effects(d, op)), SharedPath(handle))
  {
    if Commits(op, SharedPath(handle)) {
      CommitShows(d, handle, op.fault, i);
    } else if op.CreateShare? {
      CreateShows(d, op.handle, handle, i);
    } else {
      OpStates(d, op, handle, i);
    }
  }

  /** The content is that of the shared file before or after the k-th operation. */
  predicate AroundOp(d: Disk, ops: seq<Op>, k: nat, handle: string, now: Option<Content>)
    requires k < |ops|
  {
    || now == Lookup(DiskAfter(d, ops[..k]), SharedPath(handle))
    || now == Lookup(DiskAfter(d, ops[..k + 1]), SharedPath(handle))
  }

  lemma DiskAfterFirst(d: Disk, ops: seq<Op>, k: nat)
    requires k < |ops|
    ensures DiskAfter(d, ops[..k + 1]) == DiskAfter(After(d, Effects(d, ops[0])), ops[1..][..k])
  {
    assert ops[..k + 1][1..] == ops[1..][..k];
  }

  lemma AroundFirst(d: Disk, ops: seq<Op>, handle: string, i: nat)
    requires ops != [] && i < |Effects(d, ops[0])| && Effects(d, ops[0])[i].Changed?
    ensures AroundOp(d, ops, 0, handle, Lookup(Effects(d, ops[0])[i].disk, SharedPath(handle)))
  {
    DiskAfterFirst(d, ops, 0);
    OpShowsBeforeOrAfter(d, ops[0], handle, i);
  }

  lemma AroundLater(d: Disk, ops: seq<Op>, k: nat, handle: string, now: Option<Content>)
    requires k + 1 < |ops| && AroundOp(After(d, Effects(d, ops[0])), ops[1..], k, handle, now)
    ensures AroundOp(d, ops, k + 1, handle, now)
  {
    DiskAfterFirst(d, ops, k);
    DiskAfterFirst(d, ops, k + 1);
  }

  /** Readers only move forward: a state reached inside the k-th operation shows the shared
      file as it is before or after that operation, never an older or a mixed version. */
  lemma {:induction false} ReadersMoveForward(d: Disk, ops: seq<Op>, handle: string, i: nat)
    requires i < |Run(d, ops)| && Run(d, ops)[i].Changed?
    ensures AroundOp(d, ops, Owner(d, ops, i), handle, Lookup(Run(d, ops)[i].disk, SharedPath(handle)))
    decreases |ops|
  {
    var first := Effects(d, ops[0]);
    if i < |first| {
      AroundFirst(d, ops, handle, i);
    } else {
      var e, later := After(d, first), i - |first|;
      assert Run(d, ops)[i] == Run(e, ops[1..])[later];
      ReadersMoveForward(e, ops[1..], handle, later);
      AroundLater(d, ops, Owner(e, ops[1..], later), handle, Lookup(Run(d, ops)[i].disk, SharedPath(handle)));
    }
  }

  // ----- Commits can repeat, until one leaves its .tmp behind -----

  predicate Commits(op: Op, share: Path) {
    op.CommitShare? && op.staging == share + STAGING
  }

  /** The share was created and no .tmp is in the way. */
  predicate Ready(d: Disk, handle: string) {
    StagingPath(handle) in d && SharedPath(handle) + TMP !in d
  }

  /** The commit replaces the file it is to share. */
  predicate Renames(d: Disk, op: Op) {
    op.CommitShare? && Commit(d, op.staging, op.fault).status in {Committed, PublishFailed}
  }

  /** A commit of this share that breaks off after its .tmp was begun, or a commit whose own
      shared file is that .tmp and which goes through. */
  predicate Spoils(d: Disk, op: Op, handle: string) {
    || (&& Commits(op, SharedPath(handle))
        && (op.fault.RenameFails? || (op.fault.CopyFails? && op.fault.left.Some?)))
    || (Commits(op, SharedPath(handle) + TMP) && Renames(d, op))
  }

  /** Which files one operation can create or remove. */
  lemma OpFrame(d: Disk, op: Op, q: Path)
    requires !EndsWith(q, STAGING)
    requires forall h :: q != SharedPath(h)
    requires !Commits(op, q)
    requires forall share :: q == share + TMP ==> !Commits(op, share)
    ensures Lookup(After(d, Effects(d, op)), q) == Lookup(d, q)
  {
    match op
    case CreateShare(h) => SuffixesDiffer(SharedPath(h));
    case WriteStaging(share, c) => SuffixesDiffer(share);
    case CommitShare(staging, fault) =>
      if EndsWith(staging, STAGING) && staging[..|staging| - |STAGING|] != "" {
        var share := staging[..|staging| - |STAGING|];
        assert staging == share + STAGING;
        assert Commits(op, share);
        CommitEffect(d, share, fault);
      }
  }

  /** A commit removes no file but its own .tmp. */
  lemma CommitKeepsFile(d: Disk, share: Path, fault: Fault, p: Path)
    requires share != "" && p in d && p != share + TMP
    ensures p in After(d, Commit(d, share + STAGING, fault).effects)
  {
    var e := After(d, Commit(d, share + STAGING, fault).effects);
    CommitEffect(d, share, fault);
    assert Lookup(d, p) == Some(d[p]);
    assert Lookup(e, p) != None;
  }

  lemma StagingSurvives(d: Disk, op: Op, share: Path)
    requires share + STAGING in d
    ensures share + STAGING in After(d, Effects(d, op))
  {
    match op
    case CreateShare(h) =>
    case WriteStaging(other, c) =>
    case CommitShare(staging, fault) =>
      if EndsWith(staging, STAGING) && staging[..|staging| - |STAGING|] != "" {
        var other := staging[..|staging| - |STAGING|];
        assert staging == other + STAGING;
        SuffixesDiffer(share);
        SuffixesDiffer(other);
        CommitKeepsFile(d, other, fault, share + STAGING);
      }
  }

  lemma TmpFrame(d: Disk, op: Op, handle: string)
    requires !Commits(op, SharedPath(handle) + TMP) && !Commits(op, SharedPath(handle))
    ensures Lookup(After(d, Effects(d, op)), SharedPath(handle) + TMP) == Lookup(d, SharedPath(handle) + TMP)
  {
    var q := SharedPath(handle) + TMP;
    SuffixesDiffer(SharedPath(handle));
    forall h ensures q != SharedPath(h) {
      SharedPathEnds(h);
      assert EndsWith(q, TMP);
    }
    forall share | q == share + TMP ensures share == SharedPath(handle) {
      assert q[..|q| - |TMP|] == share && q[..|q| - |TMP|] == SharedPath(handle);
    }
    OpFrame(d, op, q);
  }

  /** What a commit with nothing in its way reports: its own fault alone decides. */
  function FaultStatus(fault: Fault): CommitStatus {
    match fault
    case NoFault => Committed
    case CopyFails(_) => CopyFailed
    case RenameFails => RenameFailed
    case PublishFails => PublishFailed
  }

  lemma CommitOfTmp(d: Disk, op: Op, handle: string)
    requires Commits(op, SharedPath(handle) + TMP) && SharedPath(handle) + TMP !in d
    ensures SharedPath(handle) + TMP in After(d, Effects(d, op)) <==> Renames(d, op)
  {
    var tmp := SharedPath(handle) + TMP;
    CommitEffect(d, tmp, op.fault);
    assert Lookup(d, tmp) == None;
    assert Lookup(After(d, Effects(d, op)), tmp) != None <==> tmp in After(d, Effects(d, op));
  }

  lemma OwnCommit(d: Disk, op: Op, handle: string)
    requires Ready(d, handle) && Commits(op, SharedPath(handle))
    ensures SharedPath(handle) + TMP in After(d, Effects(d, op)) <==> Spoils(d, op, handle)
    ensures Commit(d, op.staging, op.fault).status == FaultStatus(op.fault)
  {
    var share := SharedPath(handle);
    SuffixesDiffer(share);
    assert share + STAGING != share + TMP + STAGING by {
      assert |share + STAGING| != |share + TMP + STAGING|;
    }
    if op.fault.RenameFails? || (op.fault.CopyFails? && op.fault.left.Some?) {
      FailureLeavesTmp(d, handle, op.fault);
    } else {
      CommitEffect(d, share, op.fault);
    }
  }

  lemma OpKeepsReadyIff(d: Disk, op: Op, handle: string)
    requires Ready(d, handle)
    ensures Ready(After(d, Effects(d, op)), handle) <==> !Spoils(d, op, handle)
    ensures Commits(op, SharedPath(handle)) ==> Commit(d, op.staging, op.fault).status == FaultStatus(op.fault)
  {
    StagingSurvives(d, op, SharedPath(handle));
    if Commits(op, SharedPath(handle)) {
      OwnCommit(d, op, handle);
    } else if Commits(op, SharedPath(handle) + TMP) {
      CommitOfTmp(d, op, handle);
    } else {
      TmpFrame(d, op, handle);
      assert Lookup(d, SharedPath(handle) + TMP) == None;
    }
  }

  /** The status of each commit of a share, in order. */
  function Statuses(d: Disk, ops: seq<Op>, handle: string): seq<CommitStatus>
    decreases |ops|
  {
    if ops == [] then [] else
    (if Commits(ops[0], SharedPath(handle)) then [Commit(d, ops[0].staging, ops[0].fault).status] else [])
    + Statuses(After(d, Effects(d, ops[0])), ops[1..], handle)
  }

  /** The statuses that the faults alone would give. */
  function FaultStatuses(ops: seq<Op>, handle: string): seq<CommitStatus>
    decreases |ops|
  {
    if ops == [] then [] else
    (if Commits(ops[0], SharedPath(handle)) then [FaultStatus(ops[0].fault)] else []) + FaultStatuses(ops[1..], handle)
  }

  /** No operation of the run spoils the share. */
  predicate Unspoilt(d: Disk, ops: seq<Op>, handle: string)
    decreases |ops|
  {
    ops == [] || (!Spoils(d, ops[0], handle) && Unspoilt(After(d, Effects(d, ops[0])), ops[1..], handle))
  }

  /** Commits can repeat for ever: after any run, on any number of shares, the share is ready
      for another commit if and only if none of its own broke off after .tmp was begun, and no
      other commit put its file there; and until then each of its own does what its fault
      alone decides. */
  lemma {:induction false} CommitsRepeatIff(d: Disk, ops: seq<Op>, handle: string)
    requires Ready(d, handle)
    ensures Ready(DiskAfter(d, ops), handle) <==> Unspoilt(d, ops, handle)
    ensures Unspoilt(d, ops, handle) ==> Statuses(d, ops, handle) == FaultStatuses(ops, handle)
    decreases |ops|
  {
    if ops == [] {
    } else {
      var e, rest := After(d, Effects(d, ops[0])), ops[1..];
      OpKeepsReadyIff(d, ops[0], handle);
      StagingSurvives(d, ops[0], SharedPath(handle));
      if Spoils(d, ops[0], handle) {
        LeftoverTmpIsFatal(e, rest, handle);
      } else {
        CommitsRepeatIff(e, rest, handle);
      }
    }
  }

  /** A rename that fails, or a copy that breaks off, leaves the .tmp file behind. */
  lemma FailureLeavesTmp(d: Disk, handle: string, fault: Fault)
    requires Ready(d, handle)
    requires fault.RenameFails? || (fault.CopyFails? && fault.left.Some?)
    ensures SharedPath(handle) + TMP in After(d, Commit(d, StagingPath(handle), fault).effects)
  {
    SuffixesDiffer(SharedPath(handle));
  }

  /** Once a .tmp is left behind nothing the client does removes it: every later commit of
      the share fails, and the shared file never shows new content again. */
  lemma {:induction false} LeftoverTmpIsFatal(d: Disk, ops: seq<Op>, handle: string)
    requires SharedPath(handle) + TMP in d
    ensures SharedPath(handle) + TMP in DiskAfter(d, ops)
    ensures forall st | st in Statuses(d, ops, handle) :: st == CopyFailed
    ensures Lookup(DiskAfter(d, ops), SharedPath(handle)) in {Lookup(d, SharedPath(handle)), Some([])}
    decreases |ops|
  {
    if ops == [] {
    } else {
      var share := SharedPath(handle);
      var e := After(d, Effects(d, ops[0]));
      SuffixesDiffer(share);
      if Commits(ops[0], share) {
        assert Effects(d, ops[0]) == [] && e == d;
      } else if Commits(ops[0], share + TMP) {
        CommitEffect(d, share + TMP, ops[0].fault);
        assert Lookup(d, share + TMP) != None && Lookup(e, share + TMP) != None;
        AfterShowsOldOrNew(d, ops[0], handle);
      } else {
        TmpFrame(d, ops[0], handle);
        assert Lookup(e, share + TMP) != None;
        AfterShowsOldOrNew(d, ops[0], handle);
      }
      LeftoverTmpIsFatal(e, ops[1..], handle);
    }
  }

  lemma AfterShowsOldOrNew(d: Disk, op: Op, handle: string)
    requires !Commits(op, SharedPath(handle))
    ensures Lookup(After(d, Effects(d, op)), SharedPath(handle)) in {Lookup(d, SharedPath(handle)), Some([])}
  {
    var effects := Effects(d, op);
    AfterIsAState(d, effects);
    if After(d, effects) != d {
      var i :| 0 <= i < |effects| && effects[i] == Changed(After(d, effects));
      OpStates(d, op, handle, i);
    }
  }

  // ----- The published handle -----

  lemma {:induction false} FilenameStartAt(a: Path, b: Path)
    requires '/' !in b
    ensures FilenameStart(a + "/" + b) == |a| + 1
    decreases |b|
  {
    var p := a + "/" + b;
    if b == "" {
    } else {
      assert p[..|p| - 1] == a + "/" + b[..|b| - 1];
      FilenameStartAt(a, b[..|b| - 1]);
    }
  }

  /** The event is published under the handle CreateFileshare returned if and only if that
      handle has no slash in it. */
  lemma PublishedHandleIff(h: string)
    ensures Filename(ParentPath(SharedPath(h))) == h <==> '/' !in h
  {
    var p := SharedPath(h);
    if '/' in h {
      var f := Filename(ParentPath(p));
      assert '/' !in f;
    } else {
      var d := "/" + h + "/";
      assert p == ("/" + h) + "/" + "file";
      FilenameStartAt("/" + h, "file");
      assert p[..FilenameStart(p)] == d;
      assert d[..|d| - 1] == "/" + h;
      if h == "" {
        assert d == "//" && StripSeparators("//"[..1]) == "";
        FilenameStartAt("/", "");
        assert "/" + "/" + "" == "//";
      } else {
        assert ("/" + h)[|h|] == h[|h| - 1];
        assert StripSeparators(d) == StripSeparators("/" + h) == "/" + h;
        assert "" + "/" + h == "/" + h;
        FilenameStartAt("", h);
      }
    }
  }

  // ----- The client object -----

  class FileshareClient {
    var disk: Disk
    ghost var history: seq<Effect>

    constructor (disk: Disk)
      ensures this.disk == disk && history == []
    {
      this.disk := disk;
      history := [];
    }

    method CreateFileshare(handle: string) returns (sharedPath: Path, stagingPath: Path)
      modifies this
      ensures sharedPath == SharedPath(handle) && stagingPath == StagingPath(handle)
      ensures history == old(history) + Create(old(disk), handle)
      ensures disk == After(old(disk), Create(old(disk), handle))
      ensures Lookup(disk, sharedPath) == Lookup(disk, stagingPath) == Some([])
      ensures forall p | p != sharedPath && p != stagingPath :: Lookup(disk, p) == Lookup(old(disk), p)
      ensures Ready(disk, handle) <==> SharedPath(handle) + TMP !in old(disk)
    {
      CreateEffect(disk, handle);
      sharedPath := "/" + handle + "/file";
      stagingPath := "/" + handle + "/file" + STAGING;
      disk := disk[sharedPath := []];
      history := history + [Changed(disk)];
      disk := disk[stagingPath := []];
      history := history + [Changed(disk)];
    }

    method CommitFileChanges(staging: Path, fault: Fault) returns (status: CommitStatus)
      modifies this
      ensures status == Commit(old(disk), staging, fault).status
      ensures history == old(history) + Commit(old(disk), staging, fault).effects
      ensures disk == After(old(disk), Commit(old(disk), staging, fault).effects)
    {
      if !EndsWith(staging, STAGING) {
        return BadSuffix;
      }
      var share := staging[..|staging| - |STAGING|];
      if share == "" {
        return EmptyPath;
      }
      var tmp := share + TMP;
      if staging !in disk || tmp in disk {
        return CopyFailed;
      }
      var content := disk[staging];
      ghost var before := disk;
      if fault.CopyFails? {
        if fault.left.Some? {
          var n := Min(fault.left.value, |content|);
          disk := disk[tmp := content[..n]];
          history := history + Copying(before, tmp, content, n);
        }
        return CopyFailed;
      }
      disk := disk[tmp := content];
      history := history + Copying(before, tmp, content, |content|);
      assert content[..|content|] == content;
      if fault.RenameFails? {
        return RenameFailed;
      }
      disk := (disk - {tmp})[share := content];
      assert disk == (before - {tmp})[share := content];
      history := history + [Changed(disk)];
      history := history + [Published(Filename(ParentPath(share)))];
      RenamedLast(before, Copying(before, tmp, content, |content|), disk, Filename(ParentPath(share)));
      status := if fault.PublishFails? then PublishFailed else Committed;
    }
  }

  lemma RenamedLast(d: Disk, copied: seq<Effect>, renamed: Disk, handle: string)
    ensures After(d, copied + [Changed(renamed), Published(handle)]) == renamed
  {
    var all := copied + [Changed(renamed), Published(handle)];
    assert all[..|all| - 1] == copied + [Changed(renamed)];
  }
}
