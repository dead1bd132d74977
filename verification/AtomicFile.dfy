/**
 Atomic replacement of a state file (src/utils/atomic-write.ts): the full contents go to a sibling
 temporary file, which is then renamed over the target. A crash can fall between or inside the steps.
 */
module AtomicFile {

  datatype Content<+T> = Missing | Torn | Whole(data: T)

  // Crash points of one write: before the temporary file, in the middle of it, before the rename.
  const STEPS := 3

  class File<T> {
    var target: Content<T>
    var temporary: Content<T>

    constructor ()
      ensures target == Missing
    {
      target, temporary := Missing, Missing;
    }

    /** writeFileAtomicSync; `fuse` is how many of its steps run before the process dies. */
    method Write(data: T, fuse: nat) returns (done: bool)
      modifies this
      ensures done <==> fuse >= STEPS
      ensures target == if done then Whole(data) else old(target)
    {
      if fuse == 0 { return false; }
      temporary := Torn;
      if fuse == 1 { return false; }
      temporary := Whole(data);
      if fuse == 2 { return false; }
      target, temporary := temporary, Missing;
      done := true;
    }
  }
}
