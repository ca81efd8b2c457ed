/** The waste-photo upload: the dropped image is stored, classified, costed,
    recorded as a report with its footprint, and rewarded with points. The
    steps run in order, and a failing step stops the rest. */
module ImageUpload {
  import opened Outcomes
  import opened Text
  import Backend
  import Gemini
  import Carbon
  import Gamification

  const WasteBucket: string := "waste-images"
  const CompletedStatus: string := "completed"
  const UploadFallback: string := "An error occurred"

  /** `name.split('.').pop()`: a dot-free tail of the name, the whole name
      when it has no dot. */
  function FileExtension(name: string): (ext: string)
    ensures '.' !in ext
    ensures |ext| <= |name| && ext == name[|name| - |ext|..]
    ensures '.' !in name ==> ext == name
  {
    var ext := LastPiece(name, ".");
    SplitLast(name, ".");
    CharOccurs(ext, '.');
    CharOccurs(name, '.');
    ext
  }

  /** When the name has a dot, the extension is what follows its last one. */
  lemma ExtensionAfterLastDot(name: string)
    requires '.' in name
    ensures var ext := FileExtension(name);
            |ext| < |name| && name[|name| - |ext| - 1] == '.'
  {
    CharOccurs(name, '.');
    var i :| 0 <= i <= |name| && OccursAt(name, ".", i);
    assert IndexOf(name, ".", 0).Some?;
    SplitLast(name, ".");
    var ext := FileExtension(name);
    assert ext == LastPiece(name, ".");
    assert name[|name| - |ext| - 1..|name| - |ext|] == ".";
  }

  /** A name that ends with a dot and dot-free text has that text as its
      extension. */
  lemma ExtensionOfDotted(prefix: string, ext: string)
    requires '.' !in ext
    ensures FileExtension(prefix + "." + ext) == ext
  {
    var name := prefix + "." + ext;
    var e := FileExtension(name);
    assert name[|name| - |ext| - 1] == '.';
    ExtensionAfterLastDot(name);
  }

  /** `${user.id}/${Math.random()}.${fileExt}`; the random part is a parameter. */
  function StoragePath(userId: string, random: string, name: string): (path: string)
    ensures |path| > |userId| && path[..|userId| + 1] == userId + "/"
  {
    userId + "/" + random + "." + FileExtension(name)
  }

  /** The stored object keeps the file's extension. */
  lemma StoragePathKeepsExtension(userId: string, random: string, name: string)
    ensures FileExtension(StoragePath(userId, random, name)) == FileExtension(name)
  {
    ExtensionOfDotted(userId + "/" + random, FileExtension(name));
  }

  /** The object lands in the uploader's own folder, and the path ends with
      the file's extension after a dot. */
  lemma StoragePathInUserFolder(userId: string, random: string, name: string)
    requires '/' !in userId
    ensures Split(StoragePath(userId, random, name), "/")[0] == userId
    ensures var path := StoragePath(userId, random, name);
            var ext := FileExtension(name);
            |ext| < |path| && path[|path| - |ext|..] == ext && path[|path| - |ext| - 1] == '.'
  {
    var path := StoragePath(userId, random, name);
    assert path == userId + ['/'] + (random + "." + FileExtension(name));
    FirstPieceBeforeSeparator(userId, '/', random + "." + FileExtension(name));
  }

  /** The pipeline's steps, in the order they run. */
  datatype Step = UploadImage | ClassifyImage | ComputeFootprint | InsertReport | InsertFootprint | GrantPoints

  const AllSteps: seq<Step> := [UploadImage, ClassifyImage, ComputeFootprint, InsertReport, InsertFootprint, GrantPoints]

  /** How each outside call turns out: the upload's error, the public address
      of the stored image, the image as fetched back for the classifier (empty
      when that failed), the classifier's reply (`None` when the model call
      threw), the report insert's error and the id the new row received, the
      footprint insert's error, and the outcomes of the points award. */
  datatype StepOutcomes = StepOutcomes(
    uploadError: Option<Thrown>, publicUrl: string, imageData: string, reply: Option<string>,
    reportError: Option<Thrown>, reportId: string, footprintError: Option<Thrown>,
    award: Gamification.AwardOutcomes)

  function Classified(o: StepOutcomes): Result<Gemini.Classification, string> {
    Gemini.ClassifyWasteImage(o.imageData, o.reply)
  }

  /** How many steps run: the upload, classification and report insert can
      stop the pipeline; the footprint insert and the award cannot. */
  function StepsRun(o: StepOutcomes): (n: nat)
    ensures 1 <= n <= |AllSteps|
    ensures n == |AllSteps| <==> o.uploadError.None? && Classified(o).Success? && o.reportError.None?
    ensures o.uploadError.Some? ==> n == 1
  {
    if o.uploadError.Some? then 1
    else if Classified(o).Failure? then 2
    else if o.reportError.Some? then 4
    else 6
  }

  /** The report row: the classifier's category, confidence and advice, the
      impact of that category, and status "completed". */
  function ReportRow(userId: string, o: StepOutcomes): (report: Backend.WasteReport)
    requires Classified(o).Success?
    ensures var c := Classified(o).value;
            && report.id == o.reportId && report.userId == userId && report.imageUrl == o.publicUrl
            && report.classification == c.classification && report.confidence == c.confidence
            && report.recommendations == c.recommendations && report.status == CompletedStatus
            && report.carbonFootprint == Carbon.CalculateCarbonFootprint(c.classification).impact
  {
    var c := Classified(o).value;
    Backend.WasteReport(o.reportId, userId, o.publicUrl, c.classification, c.confidence, c.recommendations,
                        CompletedStatus, Carbon.CalculateCarbonFootprint(c.classification).impact)
  }

  /** The footprint row, tied to the new report. */
  function FootprintRow(userId: string, o: StepOutcomes): (row: Backend.CarbonFootprint)
    requires Classified(o).Success?
    ensures var f := Carbon.CalculateCarbonFootprint(Classified(o).value.classification);
            row == Backend.CarbonFootprint(userId, o.reportId, f.impact, f.suggestions)
  {
    var f := Carbon.CalculateCarbonFootprint(Classified(o).value.classification);
    Backend.CarbonFootprint(userId, o.reportId, f.impact, f.suggestions)
  }

  /** The report and its footprint row record the same positive impact. */
  lemma ReportMatchesFootprint(userId: string, o: StepOutcomes)
    requires Classified(o).Success?
    ensures ReportRow(userId, o).carbonFootprint == FootprintRow(userId, o).carbonImpact > 0
    ensures FootprintRow(userId, o).wasteReportId == ReportRow(userId, o).id
  {
  }

  /** What the `try` block throws, if anything. */
  function ThrownBy(points: map<string, Backend.UserPoints>, userId: string, o: StepOutcomes): (t: Option<Thrown>)
    ensures StepsRun(o) < |AllSteps| ==> t.Some?
    ensures o.uploadError.Some? ==> t == o.uploadError
    ensures o.uploadError.None? && Classified(o).Failure? ==> t == Some(ErrorObject(Gemini.ClassifyFailed))
    ensures o.uploadError.None? && Classified(o).Success? && o.reportError.Some? ==> t == o.reportError
    ensures StepsRun(o) == |AllSteps| ==>
              match Gamification.AwardResult(points, userId, Gamification.WasteReport, o.award)
              case Success(_) => t.None?
              case Failure(e) => t == Some(e)
  {
    if o.uploadError.Some? then o.uploadError
    else if Classified(o).Failure? then Some(ErrorObject(Classified(o).error))
    else if o.reportError.Some? then o.reportError
    else match Gamification.AwardResult(points, userId, Gamification.WasteReport, o.award)
      case Failure(e) => Some(e)
      case Success(_) => None
  }

  /** The footprint insert's error is never looked at: it changes neither
      which steps run nor what is reported, so points are awarded anyway. */
  lemma FootprintErrorIgnored(points: map<string, Backend.UserPoints>, userId: string, o: StepOutcomes, e: Thrown)
    ensures StepsRun(o.(footprintError := Some(e))) == StepsRun(o.(footprintError := None))
    ensures ThrownBy(points, userId, o.(footprintError := Some(e))) == ThrownBy(points, userId, o.(footprintError := None))
  {
  }

  /** The steps of `onDrop`'s `try` block, given a user and a file. */
  method RunSteps(db: Backend.Database, userId: string, name: string, random: string, o: StepOutcomes)
    returns (ran: seq<Step>, thrown: Option<Thrown>)
    modifies db`storage, db`wasteReports, db`carbonFootprints, db`userPoints, db`pointTransactions
    ensures ran == AllSteps[..StepsRun(o)]
    ensures thrown == ThrownBy(old(db.userPoints), userId, o)
    ensures db.storage == old(db.storage) +
              (if o.uploadError.None? then [Backend.StoredObject(WasteBucket, StoragePath(userId, random, name))] else [])
    ensures db.wasteReports == old(db.wasteReports) +
              (if StepsRun(o) == |AllSteps| then [ReportRow(userId, o)] else [])
    ensures db.carbonFootprints == old(db.carbonFootprints) +
              (if StepsRun(o) == |AllSteps| && o.footprintError.None? then [FootprintRow(userId, o)] else [])
    ensures db.userPoints == if StepsRun(o) < |AllSteps| then old(db.userPoints)
                             else Gamification.PointsAfterAward(old(db.userPoints), userId, Gamification.WasteReport, o.award)
    ensures db.pointTransactions ==
              if StepsRun(o) < |AllSteps| then old(db.pointTransactions)
              else Gamification.LogAfterAward(old(db.pointTransactions), userId, Gamification.WasteReport, o.reportId, o.award)
  {
    var path := StoragePath(userId, random, name);
    if o.uploadError.Some? {
      return AllSteps[..1], o.uploadError;
    }
    db.storage := db.storage + [Backend.StoredObject(WasteBucket, path)];
    var classification := Classified(o);
    if classification.Failure? {
      assert StepsRun(o) == 2;
      return AllSteps[..2], Some(ErrorObject(classification.error));
    }
    if o.reportError.Some? {
      assert StepsRun(o) == 4;
      return AllSteps[..4], o.reportError;
    }
    ran := AllSteps;
    thrown := RecordAndReward(db, userId, o);
  }

  /** The steps after a successful classification whose report insert
      succeeds: the report row, the footprint row unless its insert fails,
      and the points award. */
  method RecordAndReward(db: Backend.Database, userId: string, o: StepOutcomes) returns (thrown: Option<Thrown>)
    requires StepsRun(o) == |AllSteps|
    modifies db`wasteReports, db`carbonFootprints, db`userPoints, db`pointTransactions
    ensures thrown == ThrownBy(old(db.userPoints), userId, o)
    ensures db.wasteReports == old(db.wasteReports) + [ReportRow(userId, o)]
    ensures db.carbonFootprints == old(db.carbonFootprints) +
              (if o.footprintError.None? then [FootprintRow(userId, o)] else [])
    ensures db.userPoints == Gamification.PointsAfterAward(old(db.userPoints), userId, Gamification.WasteReport, o.award)
    ensures db.pointTransactions ==
              Gamification.LogAfterAward(old(db.pointTransactions), userId, Gamification.WasteReport, o.reportId, o.award)
  {
    db.wasteReports := db.wasteReports + [ReportRow(userId, o)];
    if o.footprintError.None? {
      db.carbonFootprints := db.carbonFootprints + [FootprintRow(userId, o)];
    }
    var award := Gamification.AwardPoints(db, userId, Gamification.WasteReport, o.reportId, o.award);
    thrown := if award.Failure? then Some(award.error) else None;
  }

  /** The upload panel. */
  class Page {
    const user: Option<string>
    var loading: bool
    var error: Option<string>

    constructor (user: Option<string>)
      ensures this.user == user && !loading && error.None?
    {
      this.user := user;
      loading, error := false, None;
    }

    /** `onDrop`: returns the steps that ran. Without a user or a file nothing
        happens; otherwise only the first file is used, and loading ends with
        the thrown value's message as the error, if any. */
    method OnDrop(db: Backend.Database, fileNames: seq<string>, random: string, o: StepOutcomes)
      returns (ran: seq<Step>)
      modifies this`loading, this`error
      modifies db`storage, db`wasteReports, db`carbonFootprints, db`userPoints, db`pointTransactions
      ensures user.None? || fileNames == [] ==>
                && ran == [] && unchanged(this)
                && unchanged(db`storage, db`wasteReports, db`carbonFootprints, db`userPoints, db`pointTransactions)
      ensures user.Some? && fileNames != [] ==>
                var thrown := ThrownBy(old(db.userPoints), user.value, o);
                && ran == AllSteps[..StepsRun(o)]
                && !loading
                && error == (if thrown.Some? then Some(MessageOr(thrown.value, UploadFallback)) else None)
                && db.storage == old(db.storage) +
                     (if o.uploadError.None? then [Backend.StoredObject(WasteBucket, StoragePath(user.value, random, fileNames[0]))] else [])
                && db.wasteReports == old(db.wasteReports) +
                     (if StepsRun(o) == |AllSteps| then [ReportRow(user.value, o)] else [])
    {
      if user.None? || fileNames == [] {
        return [];
      }
      loading := true;
      error := None;
      var thrown;
      ran, thrown := RunSteps(db, user.value, fileNames[0], random, o);
      if thrown.Some? {
        error := Some(MessageOr(thrown.value, UploadFallback));
      }
      loading := false;
    }
  }
}
