/** Rotation of the numbered log files of `src/common/css_logger.c`.

    The directory is a map from the number in a file name to the contents of the file.
 */
module LogRotation {

  const MAX_LOGGER_FILES_LEN := 20

  type Directory = map<nat, string>

  function SlotText(files: Directory, i: nat): string {
    if i in files then files[i] else ""
  }

  /** The number `k` is in use after a rotation. */
  predicate InUseAfter(files: Directory, k: nat) {
    if k < MAX_LOGGER_FILES_LEN then k > 0 && k - 1 in files else k in files
  }

  function RotatedSlots(files: Directory): (slots: set<nat>)
    ensures forall k: nat :: k in slots <==> InUseAfter(files, k)
  {
    var next := set i | i in files :: i + 1;
    assert forall i: nat :: i in files ==> i + 1 in next;
    set k | k in files.Keys + next && InUseAfter(files, k)
  }

  /** Every log moves up one number; the last one is dropped, and number 0 is free. */
  function Rotated(files: Directory): (r: Directory)
    ensures forall k: nat :: k in r <==> InUseAfter(files, k)
    ensures forall k: nat :: k in r && InUseAfter(files, k) ==> r[k] == files[if k < MAX_LOGGER_FILES_LEN then k - 1 else k]
  {
    map k | k in RotatedSlots(files) :: files[if k < MAX_LOGGER_FILES_LEN then k - 1 else k]
  }

  /** The directory when all the slots from `n` on have been rotated, and those below not yet. */
  ghost predicate RotatedDownTo(before: Directory, now: Directory, n: nat) {
    && (forall k: nat :: k < n ==> (k in now <==> k in before) && (k in before ==> now[k] == before[k]))
    && (n < MAX_LOGGER_FILES_LEN ==> n !in now)
    && (forall k: nat :: n < k < MAX_LOGGER_FILES_LEN ==> (k in now <==> k - 1 in before) && (k in now ==> now[k] == before[k - 1]))
    && (forall k: nat :: k >= MAX_LOGGER_FILES_LEN ==> (k in now <==> k in before) && (k in now ==> now[k] == before[k]))
  }

  lemma RotatedDownToZero(before: Directory, now: Directory)
    requires RotatedDownTo(before, now, 0)
    ensures now == Rotated(before)
  {
    assert forall k: nat :: k in now <==> InUseAfter(before, k);
  }

  class LogDirectory {
    var files: Directory

    constructor (files: Directory)
      ensures this.files == files
    {
      this.files := files;
    }

    /** A rename to a name that is not in use. */
    method Rename(from: nat, to: nat)
      requires from in files && to !in files
      modifies this
      ensures files == old(files)[to := old(files)[from]] - {from}
    {
      files := files[to := files[from]] - {from};
    }

    method Unlink(i: nat)
      requires i in files
      modifies this
      ensures files == old(files) - {i}
    {
      files := files - {i};
    }

    /** css_logger_rename_old_logs: scans the directory, then walks down from the last number. */
    method RenameOldLogs()
      modifies this
      ensures files == Rotated(old(files))
    {
      var before := files;
      var ibasename := seq(MAX_LOGGER_FILES_LEN, i requires 0 <= i => i in before);
      var lindex := MAX_LOGGER_FILES_LEN - 1;
      while lindex >= 0
        invariant -1 <= lindex < MAX_LOGGER_FILES_LEN
        invariant RotatedDownTo(before, files, lindex + 1)
      {
        if ibasename[lindex] {
          if lindex + 1 < MAX_LOGGER_FILES_LEN {
            Rename(lindex, lindex + 1);
          } else {
            Unlink(lindex);
          }
        }
        lindex := lindex - 1;
      }
      RotatedDownToZero(before, files);
    }
  }

  /** The texts of the slots below `n`, oldest (highest number) first. */
  function Join(files: Directory, n: nat): string {
    if n == 0 then "" else SlotText(files, n - 1) + Join(files, n - 1)
  }

  lemma {:induction false} JoinRotated(files: Directory, n: nat)
    requires n < MAX_LOGGER_FILES_LEN
    ensures Join(Rotated(files), n + 1) == Join(files, n)
  {
    if n == 0 {
      assert SlotText(Rotated(files), 0) == "";
      assert Join(Rotated(files), 0) == "";
    } else {
      JoinRotated(files, n - 1);
      assert SlotText(Rotated(files), n) == SlotText(files, n - 1);
    }
  }

  /** Main result: a rotation loses the last log and nothing else, and keeps the order. */
  lemma RotationDropsTheOldest(files: Directory)
    ensures Join(files, MAX_LOGGER_FILES_LEN)
         == SlotText(files, MAX_LOGGER_FILES_LEN - 1) + Join(Rotated(files), MAX_LOGGER_FILES_LEN)
  {
    JoinRotated(files, MAX_LOGGER_FILES_LEN - 1);
  }

  /** Changing the text of slot 0 changes the end of the joined text. */
  lemma {:induction false} JoinAppend(files: Directory, n: nat, text: string)
    requires n > 0
    ensures Join(files[0 := SlotText(files, 0) + text], n) == Join(files, n) + text
  {
    var after := files[0 := SlotText(files, 0) + text];
    if n == 1 {
      assert Join(after, 0) == "" && Join(files, 0) == "";
    } else {
      JoinAppend(files, n - 1, text);
      assert SlotText(after, n - 1) == SlotText(files, n - 1);
      Associative(SlotText(files, n - 1), Join(files, n - 1), text);
    }
  }

  lemma Associative(a: string, b: string, c: string)
    ensures (a + b) + c == a + (b + c)
  {
  }
}
