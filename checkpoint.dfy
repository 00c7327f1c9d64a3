/** kindleTranslation.py `load_progress` / `save_progress`: the one-record checkpoint
    file that lets an interrupted Kindle run resume. */
module Checkpoint {
  import opened Outcomes

  datatype Progress = Progress(pagesCompleted: int, lastPage: int)

  /** What `load_progress` returns for the file's content (`None`: no file). */
  function LoadSpec(saved: Option<Progress>): (p: Progress)
    ensures saved.None? ==> p.pagesCompleted == 0 && p.lastPage == 0
    ensures saved.Some? ==> p == saved.value
  {
    match saved
    case None => Progress(0, 0)
    case Some(q) => q
  }

  /** The checkpoint file; `saved` is `None` while the file does not exist. The
      timestamp written beside the two counters is not modelled. */
  class ProgressStore {
    var saved: Option<Progress>

    constructor (existing: Option<Progress>)
      ensures saved == existing
    {
      saved := existing;
    }

    method Load() returns (p: Progress)
      ensures p == LoadSpec(saved)
    {
      if saved.None? {
        return Progress(0, 0);
      }
      return saved.value;
    }

    /** Overwrites the whole record. */
    method Save(pagesCompleted: int, lastPage: int)
      modifies this
      ensures saved == Some(Progress(pagesCompleted, lastPage))
    {
      saved := Some(Progress(pagesCompleted, lastPage));
    }
  }
}
