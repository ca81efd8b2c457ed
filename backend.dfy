/** The hosted backend as this application sees it: the rows of the tables it
    reads and writes, and the objects in file storage. Every call the
    application makes to it either succeeds or fails with a thrown value; the
    handlers receive that outcome as a parameter. */
module Backend {
  import opened Outcomes

  /** A `user_points` row (keyed by user id). */
  datatype UserPoints = UserPoints(points: int, level: int)

  /** A `point_transactions` row. */
  datatype PointTransaction = PointTransaction(userId: string, points: int, reason: string)

  /** An object uploaded to a storage bucket. */
  datatype StoredObject = StoredObject(bucket: string, path: string)

  /** A `waste_reports` row. The confidence is kept as the unparsed text the
      classifier returned; the carbon footprint is in tenths of a kilogram. */
  datatype WasteReport = WasteReport(
    id: string, userId: string, imageUrl: string, classification: string,
    confidence: string, recommendations: seq<string>, status: string,
    carbonFootprint: int)

  /** A `carbon_footprints` row; the impact is in tenths of a kilogram. */
  datatype CarbonFootprint = CarbonFootprint(
    userId: string, wasteReportId: string, carbonImpact: int,
    reductionSuggestions: seq<string>)

  /** The position recorded when a complaint is escalated. */
  datatype Coordinates = Coordinates(latitude: real, longitude: real, accuracy: real)

  datatype AuthorityStatus = Pending | InProgress | Resolved

  /** A `complaints` row. The `authority_*` columns are optional: they are
      absent until the complaint is escalated. */
  datatype Complaint = Complaint(
    id: string, userId: string, title: string, description: string,
    location: string, status: string, upvotes: int, mediaUrls: seq<string>,
    authorityNotified: Option<bool>, authorityStatus: Option<AuthorityStatus>,
    authorityLocation: Option<Coordinates>, authorityUpdates: Option<seq<string>>)

  /** The columns the complaint form inserts into `complaints`. */
  datatype ComplaintSubmission = ComplaintSubmission(
    title: string, description: string, location: string, userId: string,
    mediaUrls: seq<string>)

  /** A `complaint_upvotes` row. */
  datatype ComplaintUpvote = ComplaintUpvote(complaintId: string, userId: string)

  /** An `event_participants` row. */
  datatype EventParticipant = EventParticipant(eventId: string, userId: string)

  class Database {
    var userPoints: map<string, UserPoints>
    var pointTransactions: seq<PointTransaction>
    var storage: seq<StoredObject>
    var wasteReports: seq<WasteReport>
    var carbonFootprints: seq<CarbonFootprint>
    var complaints: map<string, Complaint>
    var submittedComplaints: seq<ComplaintSubmission>
    var complaintUpvotes: seq<ComplaintUpvote>
    var eventParticipants: seq<EventParticipant>

    constructor ()
      ensures userPoints == map[] && pointTransactions == [] && storage == []
      ensures wasteReports == [] && carbonFootprints == [] && complaints == map[]
      ensures submittedComplaints == [] && complaintUpvotes == [] && eventParticipants == []
    {
      userPoints, pointTransactions, storage := map[], [], [];
      wasteReports, carbonFootprints, complaints := [], [], map[];
      submittedComplaints, complaintUpvotes, eventParticipants := [], [], [];
    }
  }
}
