/** Traceback rewriting (modal/_traceback.py). A traceback is the list of
    its frames, outermost first, and `None` is the empty list; relinking
    `tb_next` becomes taking sub-sequences. */
module Traceback {
  import opened Errors
  import opened Collections

  datatype Frame = Frame(filename: string, codeName: string, lineno: int, line: string)

  type Frames = seq<Frame>

  /** The filename a frame gets when it leaves container `taskId`. */
  function TaskFilename(taskId: string, file: string): string
  {
    "<" + taskId + ">:" + file
  }

  /** How many leading frames are local: those before the first filename
      that already starts with "<". */
  function LocalCount(frames: Frames): (n: nat)
    ensures n <= |frames|
    ensures forall k | 0 <= k < n :: !StartsWith(frames[k].filename, "<")
    ensures n < |frames| ==> StartsWith(frames[n].filename, "<")
  {
    if |frames| == 0 || StartsWith(frames[0].filename, "<") then 0
    else 1 + LocalCount(frames[1..])
  }

  /** The (filename, line number) -> line cache of a traceback. */
  type LineCache = seq<((string, int), string)>

  function CacheFrames(cache: LineCache, frames: Frames): LineCache
    decreases |frames|
  {
    if |frames| == 0 then cache
    else CacheFrames(DictSet(cache, (frames[0].filename, frames[0].lineno), frames[0].line), frames[1..])
  }

  /** `extract_traceback`: every frame up to the first remote one is
      attributed to `taskId`; that frame and all later ones are left
      alone. The line cache is filled from the traceback as raised, so its
      keys are the filenames before prefixing. */
  function ExtractTraceback(frames: Frames, taskId: string, cache: LineCache): (r: (Frames, LineCache))
    ensures |r.0| == |frames|
    ensures forall k | 0 <= k < LocalCount(frames) ::
      r.0[k] == frames[k].(filename := TaskFilename(taskId, frames[k].filename))
    ensures forall k | LocalCount(frames) <= k < |frames| :: r.0[k] == frames[k]
    ensures r.1 == CacheFrames(cache, frames)
  {
    var n := LocalCount(frames);
    (seq(|frames|, k requires 0 <= k < |frames| =>
       if k < n then frames[k].(filename := TaskFilename(taskId, frames[k].filename)) else frames[k]),
     CacheFrames(cache, frames))
  }

  /** Every frame of the traceback can be looked up in the new cache, and
      the cache keeps distinct keys. */
  lemma {:induction false} CacheFramesSpec(cache: LineCache, frames: Frames)
    requires Distinct(Keys(cache))
    ensures Distinct(Keys(CacheFrames(cache, frames)))
    ensures forall k | 0 <= k < |frames| :: (frames[k].filename, frames[k].lineno) in Keys(CacheFrames(cache, frames))
    ensures ToSet(Keys(cache)) <= ToSet(Keys(CacheFrames(cache, frames)))
    decreases |frames|
  {
    if |frames| > 0 {
      var key := (frames[0].filename, frames[0].lineno);
      var next := DictSet(cache, key, frames[0].line);
      DictSetSpec(cache, key, frames[0].line);
      CacheFramesSpec(next, frames[1..]);
      assert key in ToSet(Keys(next));
      forall k | 0 <= k < |frames|
        ensures (frames[k].filename, frames[k].lineno) in Keys(CacheFrames(cache, frames))
      {
        if k > 0 {
          assert frames[k] == frames[1..][k - 1];
        }
      }
    }
  }

  /** Prefixing once more changes nothing: every frame was either prefixed
      (and so now starts with "<") or already remote. */
  lemma ExtractIdempotent(frames: Frames, taskId: string, cache: LineCache)
    ensures var once := ExtractTraceback(frames, taskId, cache).0;
      ExtractTraceback(once, taskId, cache).0 == once
  {
    var once := ExtractTraceback(frames, taskId, cache).0;
    if |once| > 0 {
      assert StartsWith(once[0].filename, "<") by {
        if LocalCount(frames) > 0 {
          assert once[0].filename == TaskFilename(taskId, frames[0].filename);
        }
      }
    }
    assert LocalCount(once) == 0;
  }

  const MODAL_PACKAGE_MARKER: string := "/pkg/modal/"

  /** How many leading frames are Modal's own. */
  function ModalPrefixCount(frames: Frames): (n: nat)
    ensures n <= |frames|
    ensures forall k | 0 <= k < n :: Contains(frames[k].filename, MODAL_PACKAGE_MARKER)
    ensures n < |frames| ==> !Contains(frames[n].filename, MODAL_PACKAGE_MARKER)
  {
    if |frames| == 0 || !Contains(frames[0].filename, MODAL_PACKAGE_MARKER) then 0
    else 1 + ModalPrefixCount(frames[1..])
  }

  /** `append_modal_tb`: the traceback loses its leading Modal frames and
      nothing else. */
  function AppendModalTb(frames: Frames): (r: Frames)
    ensures exists n | 0 <= n <= |frames| ::
      r == frames[n..]
      && (forall k | 0 <= k < n :: Contains(frames[k].filename, MODAL_PACKAGE_MARKER))
      && (|r| > 0 ==> !Contains(r[0].filename, MODAL_PACKAGE_MARKER))
  {
    var n := ModalPrefixCount(frames);
    frames[n..]
  }

  /** Dropping the Modal prefix twice is dropping it once. */
  lemma AppendModalTbIdempotent(frames: Frames)
    ensures AppendModalTb(AppendModalTb(frames)) == AppendModalTb(frames)
  {
    var r := AppendModalTb(frames);
    assert ModalPrefixCount(r) == 0;
  }

  /** A frame that belongs to synchronicity or to Modal's deprecation
      helpers. */
  predicate SupportFrame(f: Frame)
  {
    Contains(f.filename, "/site-packages/synchronicity/") || Contains(f.filename, "modal/_utils/deprecation")
  }

  function DropSupport(frames: Frames): (r: Frames)
    ensures forall k | 0 <= k < |r| :: !SupportFrame(r[k]) && r[k] in frames
    ensures forall f | f in frames && !SupportFrame(f) :: f in r
    ensures |r| <= |frames|
  {
    if |frames| == 0 then []
    else
      var rest := DropSupport(frames[1..]);
      assert forall f | f in frames :: f == frames[0] || f in frames[1..];
      if SupportFrame(frames[0]) then rest else [frames[0]] + rest
  }

  /** The frames left after the first step: the root, then every later frame
      that is not a support frame. */
  function WithoutSupport(frames: Frames): (r: Frames)
    ensures |frames| == 0 ==> r == []
    ensures |frames| > 0 ==> r == [frames[0]] + DropSupport(frames[1..])
  {
    if |frames| == 0 then [] else [frames[0]] + DropSupport(frames[1..])
  }

  /** Whether a frame is where user code starts. */
  predicate UserStart(f: Frame, userSource: string)
  {
    if EndsWith(userSource, ".py") then f.filename == userSource else f.codeName == "<module>"
  }

  function FirstUserFrame(frames: Frames, userSource: string): (r: Option<nat>)
    ensures r.Some? ==> r.value < |frames| && UserStart(frames[r.value], userSource)
    ensures forall k | 0 <= k < |frames| && (r.None? || k < r.value) :: !UserStart(frames[k], userSource)
  {
    if |frames| == 0 then None
    else if UserStart(frames[0], userSource) then Some(0)
    else match FirstUserFrame(frames[1..], userSource)
      case None => None
      case Some(i) => Some(i + 1)
  }

  /** `reduce_traceback_to_user_code`: support frames after the root are
      dropped, then the traceback starts at the first frame of user code,
      or at the root when there is none. */
  function ReduceToUserCode(frames: Frames, userSource: string): (r: Frames)
    ensures var kept := WithoutSupport(frames);
      exists n | 0 <= n <= |kept| ::
        (r == kept[n..]
         && (forall k | 0 <= k < n :: !UserStart(kept[k], userSource))
         && ((n < |kept| && UserStart(kept[n], userSource))
             || (n == 0 && forall k | 0 <= k < |kept| :: !UserStart(kept[k], userSource))))
  {
    var kept := WithoutSupport(frames);
    match FirstUserFrame(kept, userSource)
    case None =>
      assert kept[0..] == kept;
      kept
    case Some(i) => kept[i..]
  }

  /** Reducing never adds frames and never keeps a support frame other than
      the one it starts from when it falls back to the root. */
  lemma ReduceKeepsOnlyUserFrames(frames: Frames, userSource: string)
    ensures |ReduceToUserCode(frames, userSource)| <= |frames|
    ensures var r := ReduceToUserCode(frames, userSource);
      forall k | 1 <= k < |r| :: !SupportFrame(r[k]) && r[k] in frames
    ensures var r := ReduceToUserCode(frames, userSource);
      |frames| > 0 ==> |r| > 0 && (UserStart(r[0], userSource) || r[0] == frames[0])
  {
    var kept := WithoutSupport(frames);
    var r := ReduceToUserCode(frames, userSource);
    var n :| 0 <= n <= |kept| && r == kept[n..] && ((n < |kept| && UserStart(kept[n], userSource)) || n == 0);
    if |frames| > 0 {
      var dropped := DropSupport(frames[1..]);
      forall k | 1 <= k < |r| ensures !SupportFrame(r[k]) && r[k] in frames {
        assert r[k] == kept[n + k] == dropped[n + k - 1];
        assert r[k] in frames[1..];
      }
    }
  }

  /** `[0-9A-Z]`. */
  predicate IdChar(c: char)
  {
    ('0' <= c <= '9') || ('A' <= c <= 'Z')
  }

  /** `re.match(r"^<ta-[0-9A-Z]{26}>:", filename)`. */
  predicate RemoteFilename(filename: string)
  {
    |filename| >= 32 && filename[..4] == "<ta-"
    && (forall k | 4 <= k < 30 :: IdChar(filename[k]))
    && filename[30] == '>' && filename[31] == ':'
  }

  /** `traceback_contains_remote_call`. */
  function ContainsRemoteCall(frames: Frames): (r: bool)
    ensures r <==> exists k | 0 <= k < |frames| :: RemoteFilename(frames[k].filename)
  {
    if |frames| == 0 then false
    else if RemoteFilename(frames[0].filename) then true
    else
      assert forall k | 1 <= k < |frames| :: frames[k] == frames[1..][k - 1];
      ContainsRemoteCall(frames[1..])
  }

  /** A task id as the server hands it out: "ta-" and 26 id characters. */
  predicate TaskId(taskId: string)
  {
    |taskId| == 29 && taskId[..3] == "ta-" && forall k | 3 <= k < 29 :: IdChar(taskId[k])
  }

  /** A traceback extracted in a task and shipped back is recognised as
      remote, as long as it had a local frame to mark. */
  lemma ExtractedIsRemote(frames: Frames, taskId: string, cache: LineCache)
    requires TaskId(taskId)
    requires |frames| > 0 && !StartsWith(frames[0].filename, "<")
    ensures ContainsRemoteCall(ExtractTraceback(frames, taskId, cache).0)
  {
    var f := ExtractTraceback(frames, taskId, cache).0[0].filename;
    assert f == "<" + taskId + ">:" + frames[0].filename;
    assert f[..4] == "<ta-";
    assert forall k | 4 <= k < 30 :: f[k] == taskId[k - 1];
    assert RemoteFilename(f);
  }

  /** What raised out of a `suppress_tb_frames` block. */
  datatype Raised = NothingRaised | BaseExceptionRaised | ExceptionRaised

  const SUPPRESSION_NOTE: string :=
    "Internal Modal traceback frames are suppressed for readability. Use MODAL_TRACEBACK=1 to show a full traceback."

  /** The exception as `__exit__` leaves it: its traceback, its `__notes__`
      attribute (`None` when the exception has none), and `__exit__`'s
      return value. */
  datatype Suppressed = Suppressed(frames: Frames, notes: Option<seq<string>>, swallow: bool)

  /** The frames left after dropping `n` (a negative `range` is empty). */
  function SkipFrames(n: int, frames: Frames): Frames
    requires n <= |frames|
  {
    frames[if n < 0 then 0 else n..]
  }

  /** `suppress_tb_frames(n).__exit__` as written: for an ordinary exception,
      with the traceback setting off, drop `n` frames; running off the end of
      the traceback raises `AttributeError`.  The note is appended to
      `getattr(exc, "__notes__", [])`, so it reaches the exception only when
      the attribute already exists.  Never swallows. */
  function SuppressTbFramesAsWritten(n: int, raised: Raised, tracebackConfig: bool, frames: Frames,
                                     notes: Option<seq<string>>): (r: Result<Suppressed>)
    ensures r.Err? <==> raised == ExceptionRaised && !tracebackConfig && n > |frames|
    ensures r.Err? ==> r.error == AttributeError
    ensures r.Ok? ==> !r.value.swallow
    ensures r.Ok? && (tracebackConfig || raised != ExceptionRaised) ==> r.value == Suppressed(frames, notes, false)
    ensures r.Ok? && !tracebackConfig && raised == ExceptionRaised ==>
      |r.value.frames| == |frames| - (if n < 0 then 0 else n)
      && (forall k | 0 <= k < |r.value.frames| :: r.value.frames[k] == frames[k + |frames| - |r.value.frames|])
      && (notes.None? ==> r.value.notes.None?)
      && (notes.Some? ==>
            r.value.notes.Some? && SUPPRESSION_NOTE in r.value.notes.value
            && (SUPPRESSION_NOTE in notes.value ==> r.value.notes.value == notes.value)
            && (SUPPRESSION_NOTE !in notes.value ==> r.value.notes.value == notes.value + [SUPPRESSION_NOTE]))
  {
    if tracebackConfig || raised != ExceptionRaised then Ok(Suppressed(frames, notes, false))
    else if n > |frames| then Err(AttributeError)
    else
      var newNotes := match notes
        case None => None
        case Some(ns) => Some(if SUPPRESSION_NOTE in ns then ns else ns + [SUPPRESSION_NOTE]);
      Ok(Suppressed(SkipFrames(n, frames), newNotes, false))
  }

  /** An exception that has no `__notes__` attribute leaves the as-written
      `__exit__` without the suppression note, although its frames were
      dropped. */
  lemma SuppressAsWrittenLosesNote(n: nat, frames: Frames)
    requires 0 < n <= |frames|
    ensures var r := SuppressTbFramesAsWritten(n, ExceptionRaised, false, frames, None);
      r.Ok? && |r.value.frames| < |frames| && r.value.notes.None?
  {
  }

  /** `suppress_tb_frames(n).__exit__` with the note attached the way
      `BaseException.add_note` would, creating `__notes__` when missing. */
  function SuppressTbFrames(n: int, raised: Raised, tracebackConfig: bool, frames: Frames,
                            notes: Option<seq<string>>): (r: Result<Suppressed>)
    ensures r.Err? <==> raised == ExceptionRaised && !tracebackConfig && n > |frames|
    ensures r.Err? ==> r.error == AttributeError
    ensures r.Ok? ==> !r.value.swallow
    ensures r.Ok? && (tracebackConfig || raised != ExceptionRaised) ==> r.value == Suppressed(frames, notes, false)
    ensures r.Ok? && !tracebackConfig && raised == ExceptionRaised ==>
      var given := notes.GetOr([]);
      |r.value.frames| == |frames| - (if n < 0 then 0 else n)
      && (forall k | 0 <= k < |r.value.frames| :: r.value.frames[k] == frames[k + |frames| - |r.value.frames|])
      && r.value.notes.Some? && SUPPRESSION_NOTE in r.value.notes.value
      && (SUPPRESSION_NOTE in given ==> r.value.notes.value == given)
      && (SUPPRESSION_NOTE !in given ==> r.value.notes.value == given + [SUPPRESSION_NOTE])
  {
    if tracebackConfig || raised != ExceptionRaised then Ok(Suppressed(frames, notes, false))
    else if n > |frames| then Err(AttributeError)
    else
      var given := notes.GetOr([]);
      Ok(Suppressed(SkipFrames(n, frames), Some(if SUPPRESSION_NOTE in given then given else given + [SUPPRESSION_NOTE]), false))
  }

  /** Where the exception already had notes, the corrected `__exit__` agrees
      with the program. */
  lemma SuppressAgreesWithNotes(n: int, raised: Raised, tracebackConfig: bool, frames: Frames, notes: seq<string>)
    ensures SuppressTbFrames(n, raised, tracebackConfig, frames, Some(notes))
         == SuppressTbFramesAsWritten(n, raised, tracebackConfig, frames, Some(notes))
  {
  }

  /** Nested suppressions compose: skipping `a` then `b` frames is skipping
      `a + b`, and the note is there exactly once, whether or not the
      exception had notes to begin with. */
  lemma SuppressCompose(a: nat, b: nat, frames: Frames, notes: Option<seq<string>>)
    requires a + b <= |frames| && (notes.Some? ==> SUPPRESSION_NOTE !in notes.value)
    ensures var once := SuppressTbFrames(a, ExceptionRaised, false, frames, notes).value;
      var twice := SuppressTbFrames(b, ExceptionRaised, false, once.frames, once.notes);
      twice.Ok? && twice.value.frames == frames[a + b..]
      && twice.value.notes == Some(notes.GetOr([]) + [SUPPRESSION_NOTE])
  {
  }

  /** The program's nested suppressions compose the same way for an
      exception that has `__notes__`, and leave one without them unnoted. */
  lemma SuppressComposeAsWritten(a: nat, b: nat, frames: Frames, notes: Option<seq<string>>)
    requires a + b <= |frames| && (notes.Some? ==> SUPPRESSION_NOTE !in notes.value)
    ensures var once := SuppressTbFramesAsWritten(a, ExceptionRaised, false, frames, notes).value;
      var twice := SuppressTbFramesAsWritten(b, ExceptionRaised, false, once.frames, once.notes);
      twice.Ok? && twice.value.frames == frames[a + b..]
      && twice.value.notes == (if notes.Some? then Some(notes.value + [SUPPRESSION_NOTE]) else None)
  {
  }
}
