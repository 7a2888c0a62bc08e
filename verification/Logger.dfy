/** Buffering and rolling of `src/common/css_logger.c`.

    A log message is its formatted text, without the terminating zero.  File operations succeed and
    writes complete in order.
 */
module Logger {
  import opened LogRotation

  const DEFAULT_LOG_BUF_SIZE := 3 * 1024 * 1024
  const MAX_LOGGER_BUFFER_LEN := 3
  const DUMP_TO_FILE_SIZE := DEFAULT_LOG_BUF_SIZE * 80 / 100
  const CSS_LOGGER_MAX_FILE_SIZE := 15 * 1024 * 1024
  /** What the dump threshold leaves free. */
  const HEADROOM := DEFAULT_LOG_BUF_SIZE - DUMP_TO_FILE_SIZE

  predicate NoTerminator(s: string) {
    forall i :: 0 <= i < |s| ==> s[i] != '\0'
  }

  /** The files a logger has created are the lowest numbers, none above the size limit by more than
      one buffer, the active one no longer than `active`. */
  ghost predicate CreatedFit(files: Directory, created: nat, active: nat) {
    forall i: nat :: i < created && i < MAX_LOGGER_FILES_LEN ==>
      i in files && |files[i]| <= if i == 0 then active else CSS_LOGGER_MAX_FILE_SIZE + DEFAULT_LOG_BUF_SIZE
  }

  lemma WriteFits(files: Directory, created: nat, text: string)
    requires 0 in files && CreatedFit(files, created, CSS_LOGGER_MAX_FILE_SIZE) && |text| <= DEFAULT_LOG_BUF_SIZE
    ensures var after := files[0 := files[0] + text];
      && CreatedFit(after, created, CSS_LOGGER_MAX_FILE_SIZE + DEFAULT_LOG_BUF_SIZE)
      && (|after[0]| <= CSS_LOGGER_MAX_FILE_SIZE ==> CreatedFit(after, created, CSS_LOGGER_MAX_FILE_SIZE))
  {
  }

  lemma RollFits(files: Directory, created: nat)
    requires CreatedFit(files, created, CSS_LOGGER_MAX_FILE_SIZE + DEFAULT_LOG_BUF_SIZE)
    ensures CreatedFit(Rotated(files)[0 := ""], created + 1, CSS_LOGGER_MAX_FILE_SIZE)
  {
    hide Rotated;
    var after := Rotated(files)[0 := ""];
    forall i: nat | i < created + 1 && i < MAX_LOGGER_FILES_LEN
      ensures i in after && |after[i]| <= if i == 0 then CSS_LOGGER_MAX_FILE_SIZE else CSS_LOGGER_MAX_FILE_SIZE + DEFAULT_LOG_BUF_SIZE
    {
      if i > 0 {
        var j: nat := i - 1;
        assert j in files && InUseAfter(files, i);
        assert after[i] == files[j];
      }
    }
  }

  // ----- What is kept -----

  /** After `rolls` rolls the files in front of them are the ones that were closed, each above the size
      limit; none has moved further than that from the numbers in use at the start, which end at `top`;
      so a text can have been dropped only when the numbers were used up. */
  ghost predicate Kept(files: Directory, rolls: nat, top: nat, dropped: string) {
    && (forall i: nat :: 1 <= i <= rolls && i < MAX_LOGGER_FILES_LEN ==> i in files && |files[i]| > CSS_LOGGER_MAX_FILE_SIZE)
    && (forall i: nat :: i in files && i < MAX_LOGGER_FILES_LEN ==> i <= top + rolls)
    && (dropped != "" ==> top + rolls >= MAX_LOGGER_FILES_LEN)
  }

  lemma WriteKeeps(files: Directory, rolls: nat, top: nat, dropped: string, text: string)
    requires Kept(files, rolls, top, dropped) && 0 in files
    ensures Kept(files[0 := files[0] + text], rolls, top, dropped)
  {
  }

  /** Rolling drops the text of the last number, if there is one. */
  lemma RollKeeps(files: Directory, rolls: nat, top: nat, dropped: string)
    requires Kept(files, rolls, top, dropped) && 0 in files && |files[0]| > CSS_LOGGER_MAX_FILE_SIZE
    ensures Kept(Rotated(files)[0 := ""], rolls + 1, top, dropped + SlotText(files, MAX_LOGGER_FILES_LEN - 1))
  {
    hide Rotated;
    var after := Rotated(files)[0 := ""];
    forall i: nat | 1 <= i <= rolls + 1 && i < MAX_LOGGER_FILES_LEN
      ensures i in after && |after[i]| > CSS_LOGGER_MAX_FILE_SIZE
    {
      var j: nat := i - 1;
      assert j in files && InUseAfter(files, i);
      assert after[i] == files[j];
    }
    forall i: nat | i in after && i < MAX_LOGGER_FILES_LEN
      ensures i <= top + (rolls + 1)
    {
      if i > 0 {
        assert InUseAfter(files, i);
      }
    }
  }

  /** Closed files add up. */
  lemma {:induction false} ClosedFilesAddUp(files: Directory, rolls: nat, n: nat)
    requires forall i: nat :: 1 <= i <= rolls && i < n ==> i in files && |files[i]| > CSS_LOGGER_MAX_FILE_SIZE
    ensures |Join(files, n)| >= (if n == 0 then 0 else if rolls < n - 1 then rolls else n - 1) * (CSS_LOGGER_MAX_FILE_SIZE + 1)
  {
    if n > 0 {
      ClosedFilesAddUp(files, rolls, n - 1);
    }
  }

  /** The highest number in use that a rotation touches. */
  ghost function Top(files: Directory, n: nat): (top: nat)
    ensures forall i: nat :: i in files && i < n ==> i <= top
    ensures (forall i: nat :: i in files && i < n ==> i == 0) ==> top == 0
    ensures top == 0 || top < n
  {
    if n == 0 then 0 else if n - 1 in files then n - 1 else Top(files, n - 1)
  }

  lemma StartFacts(files: Directory, start: Directory)
    requires start == if 0 in files then files else map[0 := ""]
    requires 0 in files || files == map[]
    ensures "" + (Join(start, MAX_LOGGER_FILES_LEN) + "") == Join(files, MAX_LOGGER_FILES_LEN)
    ensures Kept(start, 0, Top(files, MAX_LOGGER_FILES_LEN), "")
    ensures CreatedFit(start, if files == map[] then 1 else 0, CSS_LOGGER_MAX_FILE_SIZE)
  {
    hide Join;
    JoinOfEmpty(MAX_LOGGER_FILES_LEN);
    var whole := Join(start, MAX_LOGGER_FILES_LEN);
    assert "" + (whole + "") == whole;
  }

  class CssLogger {
    const dir: LogDirectory
    const buffers: seq<array<char>>
    var bindex: nat
    var buffer: array<char>
    var offset: nat
    /** The active file is open; it is number 0. */
    var writer: bool
    var writerOffset: nat
    /** Everything in the files at the start and everything logged since. */
    ghost var history: string
    /** No message was lost to the overflow branch. */
    ghost var complete: bool
    /** How many files this logger has created, and how many it has closed and rolled. */
    ghost var created: nat
    ghost var rolls: nat
    /** The text that rolling has dropped, and the highest number in use at the start. */
    ghost var dropped: string
    ghost const top: nat

    /** The files, oldest first, and then the live buffer. */
    ghost function Retained(): string
      reads this, dir, buffer
      requires offset <= buffer.Length
    {
      Join(dir.files, MAX_LOGGER_FILES_LEN) + buffer[..offset]
    }

    ghost predicate BuffersFit()
      reads this
    {
      && |buffers| == MAX_LOGGER_BUFFER_LEN
      && buffers[0] != buffers[1] && buffers[1] != buffers[2] && buffers[0] != buffers[2]
      && (forall i :: 0 <= i < |buffers| ==> buffers[i].Length == DEFAULT_LOG_BUF_SIZE)
      && 1 <= bindex <= MAX_LOGGER_BUFFER_LEN && buffer == buffers[bindex - 1]
    }

    ghost predicate CreatedFilesFit()
      reads this, dir
    {
      CreatedFit(dir.files, created, CSS_LOGGER_MAX_FILE_SIZE)
    }

    ghost predicate Valid()
      reads this, dir, buffer
    {
      && BuffersFit() && offset <= DUMP_TO_FILE_SIZE
      && (writer ==> 0 in dir.files && writerOffset == |dir.files[0]|)
      && (complete ==> dropped + Retained() == history)
      && CreatedFilesFit() && Kept(dir.files, rolls, top, dropped)
    }

    /** css_logger_start over the files found: the newest one is reopened, or a first one created. */
    constructor (files: Directory, b0: array<char>, b1: array<char>, b2: array<char>)
      requires 0 in files || files == map[]
      requires b0 != b1 && b1 != b2 && b0 != b2
      requires b0.Length == b1.Length == b2.Length == DEFAULT_LOG_BUF_SIZE
      ensures Valid() && writer && complete && fresh(dir)
      ensures buffers == [b0, b1, b2] && offset == 0 && created == if files == map[] then 1 else 0
      ensures history == Join(files, MAX_LOGGER_FILES_LEN)
      ensures rolls == 0 && dropped == "" && top == Top(files, MAX_LOGGER_FILES_LEN)
    {
      var start := if 0 in files then files else map[0 := ""];
      dir := new LogDirectory(start);
      buffers := [b0, b1, b2];
      bindex, buffer := 1, b0;
      offset, writer, writerOffset := 0, true, |start[0]|;
      history := Join(files, MAX_LOGGER_FILES_LEN);
      complete, created := true, if files == map[] then 1 else 0;
      rolls, dropped, top := 0, "", Top(files, MAX_LOGGER_FILES_LEN);
      new;
      StartFacts(files, start);
      hide Rotated, Join, SlotText, CreatedFit, Kept;
      assert b0[..0] == "";
    }

    /** css_logger_new_file after the old logs are renamed: an empty number 0. */
    method NewFile()
      modifies `writer, `writerOffset, `created, dir
      ensures dir.files == Rotated(old(dir.files))[0 := ""]
      ensures writer && writerOffset == 0 && created == old(created) + 1
    {
      dir.RenameOldLogs();
      dir.files := dir.files[0 := ""];
      writer, writerOffset := true, 0;
      created := created + 1;
    }

    /** uv_fs_write at the end of the active file. */
    method WriteFile(text: string)
      requires 0 in dir.files
      modifies dir
      ensures dir.files == old(dir.files)[0 := old(dir.files)[0] + text]
    {
      dir.files := dir.files[0 := dir.files[0] + text];
    }

    /** css_logger_dump_to_file: hands the buffer to the active file and goes on with the next
        buffer; a file that has passed the size limit is closed and a new one started. */
    method DumpToFile(shouldClose0: bool)
      requires BuffersFit() && offset <= DEFAULT_LOG_BUF_SIZE && CreatedFilesFit()
      requires writer ==> 0 in dir.files && writerOffset == |dir.files[0]|
      requires complete ==> dropped + Retained() == history
      requires Kept(dir.files, rolls, top, dropped)
      modifies this, dir, buffers
      ensures Valid() && offset == 0 && history == old(history)
      ensures complete == (old(complete) && (old(writer) || old(offset) == 0))
      ensures old(writer) && !shouldClose0 ==> writer
    {
      var shouldClose, len := shouldClose0, offset;
      if !writer {
        complete := complete && offset == 0;
        offset := 0;
        return;
      }
      if offset == 0 {
        if shouldClose {
          writer := false;
        }
        return;
      }
      var tbuffer := SwapBuffers();
      WriteAndRoll(tbuffer[..len], shouldClose);
      assert Retained() == Join(dir.files, MAX_LOGGER_FILES_LEN);
    }

    /** The full buffer is set aside and the next one of the ring becomes the live one, empty. */
    method SwapBuffers() returns (tbuffer: array<char>)
      requires BuffersFit()
      modifies `bindex, `buffer, `offset, buffers
      ensures BuffersFit() && offset == 0 && buffer != tbuffer
      ensures tbuffer == old(buffer) && tbuffer[..] == old(buffer[..])
    {
      tbuffer := buffer;
      if bindex > MAX_LOGGER_BUFFER_LEN - 1 {
        bindex := 0;
      }
      buffer := buffers[bindex];
      bindex := bindex + 1;
      offset := 0;
      buffer[0] := '\0';
    }

    /** Writes to the active file, then closes it if asked or if it has passed the size limit; in
        the latter case the files are rotated and a new one is started. */
    method WriteAndRoll(text: string, shouldClose0: bool)
      requires writer && 0 in dir.files && writerOffset == |dir.files[0]| && CreatedFilesFit()
      requires |text| <= DEFAULT_LOG_BUF_SIZE && Kept(dir.files, rolls, top, dropped)
      modifies `writer, `writerOffset, `created, `rolls, `dropped, dir
      ensures writer ==> 0 in dir.files && writerOffset == |dir.files[0]|
      ensures CreatedFilesFit() && Kept(dir.files, rolls, top, dropped)
      ensures dropped + Join(dir.files, MAX_LOGGER_FILES_LEN) == old(dropped) + (old(Join(dir.files, MAX_LOGGER_FILES_LEN)) + text)
      ensures rolls == old(rolls) + if old(|dir.files[0]|) + |text| > CSS_LOGGER_MAX_FILE_SIZE then 1 else 0
      ensures !shouldClose0 ==> writer
    {
      var shouldClose := shouldClose0;
      writerOffset := writerOffset + |text|;
      var shouldRoll := writerOffset > CSS_LOGGER_MAX_FILE_SIZE;
      if shouldRoll {
        shouldClose := true;
      }
      JoinAppend(dir.files, MAX_LOGGER_FILES_LEN, text);
      WriteFits(dir.files, created, text);
      WriteKeeps(dir.files, rolls, top, dropped, text);
      hide CreatedFit, Join, Rotated, Kept;
      WriteFile(text);
      if shouldClose {
        writer, writerOffset := false, 0;
        if shouldRoll {
          RollDrops(dir.files, dropped);
          RollFits(dir.files, created);
          RollKeeps(dir.files, rolls, top, dropped);
          rolls, dropped := rolls + 1, dropped + SlotText(dir.files, MAX_LOGGER_FILES_LEN - 1);
          NewFile();
        }
      }
    }

    /** vsnprintf into the live buffer: as much as fits, always terminated. */
    method PrintToBuffer(msg: string, size: nat) returns (ret: nat)
      requires 0 < size && offset + size <= buffer.Length
      modifies buffer
      ensures ret == |msg|
      ensures |msg| < size ==> buffer[..offset + |msg|] == old(buffer[..offset]) + msg && buffer[offset + |msg|] == '\0'
      ensures buffer[..offset] == old(buffer[..offset])
    {
      ret := |msg|;
      var n := if |msg| < size then |msg| else size - 1;
      for k := 0 to n
        invariant buffer[..offset] == old(buffer[..offset])
        invariant buffer[offset..offset + k] == msg[..k]
      {
        buffer[offset + k] := msg[k];
      }
      buffer[offset + n] := '\0';
      assert buffer[..offset + n] == buffer[..offset] + buffer[offset..offset + n];
    }

    /** strlen of the text just printed. */
    method PrintedLength(ghost msg: string) returns (len: nat)
      requires NoTerminator(msg) && offset + |msg| < buffer.Length
      requires buffer[offset..offset + |msg|] == msg && buffer[offset + |msg|] == '\0'
      ensures len == |msg|
    {
      len := 0;
      ghost var printed := buffer[offset..offset + |msg|];
      assert forall i :: 0 <= i < |printed| ==> printed[i] == buffer[offset + i];
      while buffer[offset + len] != '\0'
        invariant 0 <= len <= |msg|
        decreases |msg| - len
      {
        len := len + 1;
      }
    }

    /** The buffering part of css_logger_log_inner, with an active file.  The message is lost exactly
        when it does not fit behind the live text.  The retry then prints through a pointer into the
        buffer that was dumped; `overrun` tells that it prints past the end of it, which happens
        whenever that buffer was not empty, and after which nothing is said of the memory. */
    method LogInner(msg: string) returns (lost: bool, overrun: bool)
      requires Valid() && writer && NoTerminator(msg)
      modifies this, dir, buffers
      ensures !overrun ==> Valid() && writer
      ensures history == old(history) + msg
      ensures lost <==> !FitsBehind(old(offset), |msg|)
      ensures overrun <==> lost && old(offset) > 0
      ensures !lost ==> offset == NextOffset(old(offset), |msg|)
      ensures complete == (old(complete) && !lost)
      ensures |msg| < HEADROOM ==> !lost
    {
      var ret := PrintToBuffer(msg, DEFAULT_LOG_BUF_SIZE - offset);
      lost, overrun := ret >= DEFAULT_LOG_BUF_SIZE - offset, false;
      if lost {
        var start := offset;
        DumpToFile(false);
        var printed := if ret < DEFAULT_LOG_BUF_SIZE - offset then ret + 1 else DEFAULT_LOG_BUF_SIZE - offset;
        overrun := start + printed > DEFAULT_LOG_BUF_SIZE;
        history, complete := history + msg, false;
      } else {
        Associative(Join(dir.files, MAX_LOGGER_FILES_LEN), old(buffer[..offset]), msg);
        Associative(dropped, old(Retained()), msg);
        history := history + msg;
        Accept(msg);
      }
    }

    /** A message that was printed whole becomes part of the live text. */
    method Accept(ghost msg: string)
      requires BuffersFit() && CreatedFilesFit() && writer && 0 in dir.files && writerOffset == |dir.files[0]|
      requires NoTerminator(msg) && offset + |msg| < buffer.Length
      requires buffer[..offset + |msg|][offset..] == msg && buffer[offset + |msg|] == '\0'
      requires complete ==> dropped + (Join(dir.files, MAX_LOGGER_FILES_LEN) + buffer[..offset + |msg|]) == history
      requires Kept(dir.files, rolls, top, dropped)
      modifies this, dir, buffers
      ensures Valid() && writer && history == old(history) && complete == old(complete)
      ensures offset == NextOffset(old(offset), |msg|)
    {
      assert buffer[offset..offset + |msg|] == buffer[..offset + |msg|][offset..];
      var len := PrintedLength(msg);
      offset := offset + len;
      if offset > DUMP_TO_FILE_SIZE {
        DumpToFile(false);
      }
    }

    /** A text has been dropped only after as many rolls as there were numbers left, and each roll has left
        a file above the size limit. */
    ghost predicate EnoughRetained()
      reads this, dir, buffer
      requires offset <= buffer.Length
    {
      && (dropped != "" ==> top + rolls >= 20)
      && |Retained()| >= (if rolls < 19 then rolls else 19) * (15 * 1024 * 1024 + 1)
      && (top == 0 && dropped != "" ==> |Retained()| > 19 * (15 * 1024 * 1024))
    }

    lemma Retention()
      requires Valid()
      ensures EnoughRetained()
    {
      ClosedFilesAddUp(dir.files, rolls, MAX_LOGGER_FILES_LEN);
      hide Join;
    }

    /** One message, after which the dump timer may fire. */
    method RunOne(msg: string, timer: bool)
      requires Valid() && writer && complete && NoTerminator(msg) && |msg| < HEADROOM
      modifies this, dir, buffers
      ensures Valid() && writer && complete && history == old(history) + msg
      ensures !timer ==> offset == NextOffset(old(offset), |msg|)
    {
      hide Join;
      var lost, overrun := LogInner(msg);
      if timer {
        DumpToFile(false);
      }
    }

    /** Main result: after any run of messages below the headroom, with the dump timer firing at
        will, the files oldest first and then the live buffer are all that was logged but for what rolling
        has dropped from the front, and every file created stays within the size limit plus one buffer.  Nothing is missing until as many
        files have been rolled as there were numbers left, and each of those is above the size limit; so a
        logger that began with no more than number 0 keeps the last 19 times 15 MiB and more. */
    method Run(messages: seq<string>, timer: seq<bool>)
      requires Valid() && writer && complete && |timer| == |messages|
      requires forall i :: 0 <= i < |messages| ==> NoTerminator(messages[i]) && |messages[i]| < HEADROOM
      modifies this, dir, buffers
      ensures Valid() && complete
      ensures history == old(history) + Texts(messages)
      ensures dropped + Retained() == history && EnoughRetained()
      ensures (forall i :: 0 <= i < |timer| ==> !timer[i]) ==> offset == OffsetFrom(old(offset), Lengths(messages))
      ensures forall i: nat :: i < created && i < 20 ==> i in dir.files && |dir.files[i]| <= 18 * 1024 * 1024
    {
      var i := 0;
      assert messages[..0] == [];
      hide Texts, Lengths, Join, NoTerminator, Kept;
      while i < |messages|
        invariant 0 <= i <= |messages|
        invariant Valid() && writer && complete
        invariant history == old(history) + Texts(messages[..i])
        invariant (forall j :: 0 <= j < i ==> !timer[j]) ==> offset == OffsetFrom(old(offset), Lengths(messages[..i]))
      {
        TextsOfOneMore(messages, i);
        Associative(old(history), Texts(messages[..i]), messages[i]);
        LengthsStep(messages, i);
        RunOne(messages[i], timer[i]);
        i := i + 1;
      }
      assert messages[..i] == messages;
      Retention();
      hide Retained, EnoughRetained;
    }
  }

  function Texts(messages: seq<string>): string {
    if messages == [] then "" else Texts(messages[..|messages| - 1]) + messages[|messages| - 1]
  }

  /** Where the live text ends after a message that fits. */
  function NextOffset(offset: nat, n: nat): nat {
    if offset + n > DUMP_TO_FILE_SIZE then 0 else offset + n
  }

  function OffsetFrom(offset: nat, lengths: seq<nat>): nat {
    if lengths == [] then offset else NextOffset(OffsetFrom(offset, lengths[..|lengths| - 1]), lengths[|lengths| - 1])
  }

  function Lengths(messages: seq<string>): (lengths: seq<nat>)
    ensures |lengths| == |messages|
    ensures forall i :: 0 <= i < |messages| ==> lengths[i] == |messages[i]|
  {
    seq(|messages|, i requires 0 <= i < |messages| => |messages[i]|)
  }

  lemma LengthsStep(messages: seq<string>, i: nat)
    requires i < |messages|
    ensures Lengths(messages[..i + 1])[..i] == Lengths(messages[..i])
  {
  }

  /** The message is printed without reaching the overflow branch. */
  predicate FitsBehind(offset: nat, n: nat) {
    n < DEFAULT_LOG_BUF_SIZE - offset
  }

  /** The offsets that messages below the headroom lead to stay below the threshold... */
  lemma {:induction false} OffsetStaysLow(lengths: seq<nat>)
    ensures OffsetFrom(0, lengths) <= DUMP_TO_FILE_SIZE
  {
  }

  /** ...and every offset up to the threshold is among them. */
  lemma {:induction false} EveryOffsetIsReached(k: nat)
    requires k <= DUMP_TO_FILE_SIZE
    ensures OffsetFrom(0, Ones(k)) == k
  {
    if k > 0 {
      EveryOffsetIsReached(k - 1);
      assert Ones(k)[..k - 1] == Ones(k - 1);
    }
  }

  function Ones(k: nat): (s: seq<nat>)
    ensures |s| == k && forall i :: 0 <= i < k ==> s[i] == 1
  {
    seq(k, _ => 1)
  }

  predicate Short(lengths: seq<nat>) {
    forall i :: 0 <= i < |lengths| ==> lengths[i] < HEADROOM
  }

  /** Main result: a message length is safe wherever messages below the headroom can lead the logger
      exactly when it is below the headroom itself; the overflow branch is then unreachable. */
  lemma OverflowUnreachableIff(n: nat)
    ensures (forall lengths :: Short(lengths) ==> FitsBehind(OffsetFrom(0, lengths), n)) <==> n < 629146
  {
    if n < HEADROOM {
      forall lengths | Short(lengths)
        ensures FitsBehind(OffsetFrom(0, lengths), n)
      {
        OffsetStaysLow(lengths);
      }
    } else {
      EveryOffsetIsReached(DUMP_TO_FILE_SIZE);
      assert Short(Ones(DUMP_TO_FILE_SIZE)) && !FitsBehind(OffsetFrom(0, Ones(DUMP_TO_FILE_SIZE)), n);
    }
  }

  /** One-character messages up to the threshold, and then one of the size of the headroom. */
  predicate LeadsToOverflow(messages: seq<string>) {
    && |messages| == DUMP_TO_FILE_SIZE + 1
    && (forall i :: 0 <= i < DUMP_TO_FILE_SIZE ==> messages[i] == "x")
    && |messages[DUMP_TO_FILE_SIZE]| == HEADROOM && NoTerminator(messages[DUMP_TO_FILE_SIZE])
  }

  /** Main result: a logger as it is when it starts that is given such messages keeps all but the last
      one, which it loses, printing past the end of a buffer. */
  method OverflowIsReachable(logger: CssLogger, messages: seq<string>) returns (losses: seq<bool>, overruns: seq<bool>)
    requires logger.Valid() && logger.writer && logger.complete && logger.offset == 0
    requires LeadsToOverflow(messages)
    modifies logger, logger.dir, logger.buffers
    ensures logger.history == old(logger.history) + Texts(messages) && !logger.complete
    ensures |losses| == |overruns| == |messages|
    ensures forall i :: 0 <= i < |messages| ==> losses[i] == overruns[i] == (i == DUMP_TO_FILE_SIZE)
  {
    losses, overruns := [], [];
    assert messages[..0] == [];
    hide Texts, Join;
    for i := 0 to |messages|
      invariant i <= DUMP_TO_FILE_SIZE ==> logger.Valid() && logger.writer && logger.offset == i
      invariant logger.complete == (i <= DUMP_TO_FILE_SIZE)
      invariant logger.history == old(logger.history) + Texts(messages[..i])
      invariant |losses| == |overruns| == i
      invariant forall j :: 0 <= j < i ==> losses[j] == overruns[j] == (j == DUMP_TO_FILE_SIZE)
    {
      TextsOfOneMore(messages, i);
      Associative(old(logger.history), Texts(messages[..i]), messages[i]);
      var lost, overrun := LogTowardsOverflow(logger, messages[i]);
      losses, overruns := losses + [lost], overruns + [overrun];
    }
    assert messages[..|messages|] == messages;
  }

  /** One such message. */
  method LogTowardsOverflow(logger: CssLogger, msg: string) returns (lost: bool, overrun: bool)
    requires logger.Valid() && logger.writer && logger.complete && logger.offset <= DUMP_TO_FILE_SIZE
    requires NoTerminator(msg) && |msg| == if logger.offset < DUMP_TO_FILE_SIZE then 1 else HEADROOM
    modifies logger, logger.dir, logger.buffers
    ensures logger.history == old(logger.history) + msg
    ensures lost == overrun == (old(logger.offset) == DUMP_TO_FILE_SIZE)
    ensures if lost then !logger.complete else
      logger.Valid() && logger.writer && logger.complete && logger.offset == old(logger.offset) + 1
  {
    hide Join;
    lost, overrun := logger.LogInner(msg);
  }

  lemma TextsOfOneMore(messages: seq<string>, i: nat)
    requires i < |messages|
    ensures Texts(messages[..i + 1]) == Texts(messages[..i]) + messages[i]
  {
    assert messages[..i + 1][..i] == messages[..i];
  }

  /** Rolling drops the text of the last number and nothing else. */
  lemma RollDrops(files: Directory, dropped: string)
    ensures dropped + SlotText(files, MAX_LOGGER_FILES_LEN - 1) + Join(Rotated(files)[0 := ""], MAX_LOGGER_FILES_LEN)
         == dropped + Join(files, MAX_LOGGER_FILES_LEN)
  {
    RotationDropsTheOldest(files);
    assert SlotText(Rotated(files), 0) + "" == "";
    hide Rotated, Join;
    JoinAppend(Rotated(files), MAX_LOGGER_FILES_LEN, "");
    assert Join(Rotated(files), MAX_LOGGER_FILES_LEN) + "" == Join(Rotated(files), MAX_LOGGER_FILES_LEN);
    Associative(dropped, SlotText(files, MAX_LOGGER_FILES_LEN - 1), Join(Rotated(files), MAX_LOGGER_FILES_LEN));
  }

  lemma {:induction false} JoinOfEmpty(n: nat)
    ensures Join(map[], n) == "" && Join(map[0 := ""], n) == ""
  {
    if n > 0 {
      JoinOfEmpty(n - 1);
    }
  }
}
