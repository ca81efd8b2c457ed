/** The user's list of past waste reports: loading it, and deleting one
    report from the store and from the list. */
module WasteHistory {
  import opened Outcomes
  import opened Lists
  import Backend

  const LoadFallback: string := "Failed to load waste reports"
  const DeleteFallback: string := "Failed to delete report"

  /** The test `report.id !== reportId`. */
  function OtherThan(id: string): Backend.WasteReport -> bool {
    (report: Backend.WasteReport) => report.id != id
  }

  /** `reports.filter(report => report.id !== id)`. */
  function WithoutReport(reports: seq<Backend.WasteReport>, id: string): (rest: seq<Backend.WasteReport>)
    ensures forall r :: r in rest <==> r in reports && r.id != id
    ensures |rest| <= |reports|
  {
    Filter(reports, OtherThan(id))
  }

  /** The reports that stay keep their relative order. */
  lemma WithoutReportKeepsOrder(front: seq<Backend.WasteReport>, back: seq<Backend.WasteReport>, id: string)
    ensures WithoutReport(front + back, id) == WithoutReport(front, id) + WithoutReport(back, id)
  {
    FilterAppend(front, back, OtherThan(id));
  }

  /** Deleting an id that is not listed leaves the list as it was. */
  lemma WithoutAbsentReport(reports: seq<Backend.WasteReport>, id: string)
    requires forall i :: 0 <= i < |reports| ==> reports[i].id != id
    ensures WithoutReport(reports, id) == reports
  {
    FilterKeepsAll(reports, OtherThan(id));
  }

  /** Deleting the same report twice is deleting it once. */
  lemma WithoutReportIdempotent(reports: seq<Backend.WasteReport>, id: string)
    ensures WithoutReport(WithoutReport(reports, id), id) == WithoutReport(reports, id)
  {
    FilterIdempotent(reports, OtherThan(id));
  }

  /** The list panel. */
  class View {
    var reports: seq<Backend.WasteReport>
    var loading: bool
    var error: Option<string>
    /** The id of the report being deleted, if any. */
    var deleting: Option<string>

    constructor ()
      ensures reports == [] && loading && error.None? && deleting.None?
    {
      reports, loading, error, deleting := [], true, None, None;
    }

    /** `fetchReports`, given the query's error or data (`None` for `null`). */
    method FetchReports(result: Result<Option<seq<Backend.WasteReport>>, Thrown>)
      modifies this`reports, this`loading, this`error
      ensures !loading
      ensures result.Success? ==>
                reports == (if result.value.Some? then result.value.value else []) && error == old(error)
      ensures result.Failure? ==>
                reports == old(reports) && error == Some(MessageOr(result.error, LoadFallback))
    {
      match result {
        case Success(data) =>
          reports := if data.Some? then data.value else [];
        case Failure(e) =>
          error := Some(MessageOr(e, LoadFallback));
      }
      loading := false;
    }

    /** The part of `handleDelete` before the store call. */
    method BeginDelete(id: string)
      modifies this`deleting
      ensures deleting == Some(id)
    {
      deleting := Some(id);
    }

    /** The part of `handleDelete` after the store call: on success the rows
        with that id are gone from the store and from the list; on failure
        both are untouched and the error is shown. */
    method FinishDelete(db: Backend.Database, id: string, deleteError: Option<Thrown>)
      modifies this`reports, this`error, this`deleting, db`wasteReports
      ensures deleting.None?
      ensures deleteError.None? ==>
                && reports == WithoutReport(old(reports), id) && error == old(error)
                && db.wasteReports == WithoutReport(old(db.wasteReports), id)
      ensures deleteError.Some? ==>
                && reports == old(reports) && error == Some(MessageOr(deleteError.value, DeleteFallback))
                && db.wasteReports == old(db.wasteReports)
    {
      if deleteError.None? {
        db.wasteReports := WithoutReport(db.wasteReports, id);
        reports := WithoutReport(reports, id);
      } else {
        error := Some(MessageOr(deleteError.value, DeleteFallback));
      }
      deleting := None;
    }

    /** `handleDelete`. */
    method HandleDelete(db: Backend.Database, id: string, deleteError: Option<Thrown>)
      modifies this`reports, this`error, this`deleting, db`wasteReports
      ensures deleting.None?
      ensures deleteError.None? ==>
                && reports == WithoutReport(old(reports), id) && error == old(error)
                && db.wasteReports == WithoutReport(old(db.wasteReports), id)
      ensures deleteError.Some? ==>
                && reports == old(reports) && error == Some(MessageOr(deleteError.value, DeleteFallback))
                && db.wasteReports == old(db.wasteReports)
    {
      BeginDelete(id);
      FinishDelete(db, id, deleteError);
    }
  }
}
