/**
  The data of the issue-report form: the closed list of report categories,
  the draft being filled in, the attached files, and the per-field error map.
 */
module ReportTypes {

  datatype Option<T> = None | Some(value: T)

  /** The kinds of civic issue a report can be about. */
  datatype ReportCategory =
    | Potholes
    | OpenDrainage
    | WaterLogging
    | HeavyTraffic
    | GarbageManagement
    | WaterLandPollution
    | StreetlampIssue
    | PoorRoads
    | Other

  /** The display string each category carries as its enum value. */
  function CategoryLabel(c: ReportCategory): string {
    match c
    case Potholes => "Potholes"
    case OpenDrainage => "Open Drainage"
    case WaterLogging => "Water Logging"
    case HeavyTraffic => "Heavy Traffic"
    case GarbageManagement => "Garbage Management"
    case WaterLandPollution => "Water/Land Pollution"
    case StreetlampIssue => "Streetlamp Issue"
    case PoorRoads => "Poor Roads"
    case Other => "Other"
  }

  /** The draft's category slot: a category, or the empty string before one is picked. */
  datatype CategoryChoice = Unset | Chosen(category: ReportCategory)

  /** The string the category select holds; empty exactly when nothing has been picked. */
  function ChoiceValue(c: CategoryChoice): (v: string)
    ensures v == [] <==> c == Unset
  {
    match c
    case Unset => ""
    case Chosen(cat) => CategoryLabel(cat)
  }

  /** A file handed over by the browser's file picker: its media type and its size in bytes. */
  datatype File = File(mediaType: string, size: nat)

  /** The report being filled in. */
  datatype ReportForm = ReportForm(
    category: CategoryChoice,
    address: string,
    pincode: string,
    district: string,
    state: string,
    reporterName: string,
    photos: seq<File>,
    description: string)

  /** The empty draft the form starts from and returns to after a successful submission. */
  const InitialForm := ReportForm(Unset, "", "", "", "", "", [], "")

  /** The names of the draft's fields, which key the error map. */
  datatype Field =
    | Category
    | Address
    | Pincode
    | District
    | State
    | ReporterName
    | Photos
    | Description

  /** Field name to message; a field without an entry has no error to show. */
  type Errors = map<Field, string>
}
