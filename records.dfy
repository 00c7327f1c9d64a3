/** The result log: one JSON line per attempted page, append-only. */
module Records {
  import opened Outcomes

  /** Every status string either driver writes. The PDF driver writes
      `failed_after_retries` where the Kindle driver writes `failed_rate_limit`. */
  datatype Status =
    | Undefined
    | Success
    | SkippedEmptyPage
    | FailedAfterRetries
    | FailedRateLimit
    | FailedInvalidArgument
    | FailedGenericError

  function StatusName(s: Status): string
  {
    match s
    case Undefined => "undefined"
    case Success => "success"
    case SkippedEmptyPage => "skipped_empty_page"
    case FailedAfterRetries => "failed_after_retries"
    case FailedRateLimit => "failed_rate_limit"
    case FailedInvalidArgument => "failed_invalid_argument"
    case FailedGenericError => "failed_generic_error"
  }

  /** One line of the log. The PDF driver writes `original_text_preview`, the Kindle
      driver `original_text`; the error message is represented by the kind of the
      exception it was taken from. */
  datatype Record =
    | PdfRecord(pageNumber: int, status: Status, preview: Option<string>,
                translated: Option<string>, error: Option<ErrorKind>)
    | KindleRecord(pageNumber: int, status: Status, original: Option<string>,
                   translated: Option<string>, error: Option<ErrorKind>)

  /** Page numbers `first`, `first + 1`, ... in log order. */
  predicate Consecutive(rs: seq<Record>, first: int)
  {
    forall j :: 0 <= j < |rs| ==> rs[j].pageNumber == first + j
  }

  predicate StrictlyIncreasing(rs: seq<Record>)
  {
    forall i, j :: 0 <= i < j < |rs| ==> rs[i].pageNumber < rs[j].pageNumber
  }

  /** Two consecutive runs, the second starting right after the first, together
      number their pages strictly increasingly. */
  lemma ConsecutiveJoin(rs1: seq<Record>, rs2: seq<Record>, first: int)
    requires Consecutive(rs1, first) && Consecutive(rs2, first + |rs1|)
    ensures Consecutive(rs1 + rs2, first) && StrictlyIncreasing(rs1 + rs2)
  {
    var all := rs1 + rs2;
    forall j | 0 <= j < |all| ensures all[j].pageNumber == first + j {
      if j >= |rs1| {
        assert all[j] == rs2[j - |rs1|];
      }
    }
  }

  /** Index of the most recent successful record among the first `j`, if any. */
  function LastSuccess(rs: seq<Record>, j: nat): (r: Option<nat>)
    requires j <= |rs|
    ensures r.Some? ==> r.value < j && rs[r.value].status == Success
    ensures r.Some? ==> forall k :: r.value < k < j ==> rs[k].status != Success
    ensures r.None? ==> forall k :: 0 <= k < j ==> rs[k].status != Success
  {
    if j == 0 then None
    else if rs[j - 1].status == Success then Some(j - 1)
    else LastSuccess(rs, j - 1)
  }

  /** Putting a record in front shifts the answer by one; when the tail has no
      success before `j`, the answer is the new record if it is a success. */
  lemma {:induction false} LastSuccessCons(r: Record, rs: seq<Record>, j: nat)
    requires j <= |rs|
    ensures LastSuccess([r] + rs, j + 1) ==
      match LastSuccess(rs, j)
      case Some(k) => Some(k + 1)
      case None => if r.status == Success then Some(0) else None
  {
    if j > 0 {
      assert ([r] + rs)[j] == rs[j - 1];
      LastSuccessCons(r, rs, j - 1);
    }
  }

  lemma Associate(a: seq<Record>, b: seq<Record>, c: seq<Record>)
    ensures a + (b + c) == (a + b) + c
  {
  }

  /** The log file: records are only ever appended. */
  class JsonlLog {
    var records: seq<Record>

    constructor (existing: seq<Record>)
      ensures records == existing
    {
      records := existing;
    }

    method Append(r: Record)
      modifies this
      ensures records == old(records) + [r]
    {
      records := records + [r];
    }
  }
}
