/** One tile of the room board: a room seen on a chosen date, the colour its
    status is painted in, and the actions its context menu offers. */
module RoomViewModels {
  import opened Dates
  import opened Entities
  import opened RoomModel

  /** The tile colours the board uses. */
  datatype Color = LightGreen | LightCoral | LightBlue | Orange | LightYellow | LightGray

  /** The events a context-menu action raises. */
  datatype Request =
    | ReserveRoomRequested
    | MaintenanceRequested
    | CheckInRequested
    | CancelReservationRequested
    | CheckOutRequested
    | ExtendStayRequested
    | MarkAsAvailableRequested
    | ViewDetailsRequested

  /** A context-menu entry: a labelled action, or a separator line. */
  datatype MenuItem = Action(text: string, request: Request) | Separator

  /** The colour of a status. Every status has its own colour; the fallback
      grey is never used. */
  function ColorOf(status: RoomStatusType): (c: Color)
    ensures c != LightGray
    ensures c == LightGreen <==> status == Available
    ensures c == LightCoral <==> status == Occupied
  {
    match status
    case Available => LightGreen
    case Occupied => LightCoral
    case Reserved => LightBlue
    case UnderMaintenance => Orange
    case CleaningInProgress => LightYellow
  }

  /** Two statuses painted alike are the same status. */
  lemma ColorsDistinct(a: RoomStatusType, b: RoomStatusType)
    ensures ColorOf(a) == ColorOf(b) ==> a == b
  {
  }

  /** The actions a status offers before the common tail. */
  function StatusActions(status: RoomStatusType): seq<MenuItem> {
    match status
    case Available =>
      [Action("Reserve Room", ReserveRoomRequested), Action("Mark Under Maintenance", MaintenanceRequested)]
    case Reserved =>
      [Action("Check In", CheckInRequested), Action("Cancel Reservation", CancelReservationRequested)]
    case Occupied =>
      [Action("Check Out", CheckOutRequested), Action("Extend Stay", ExtendStayRequested)]
    case CleaningInProgress =>
      [Action("Mark as Available", MarkAsAvailableRequested)]
    case UnderMaintenance =>
      [Action("Mark as Available", MarkAsAvailableRequested)]
  }

  /** The context menu of a tile in a status. It always ends with a
      separator and "View Details", which appear nowhere else; each
      lifecycle action is offered exactly in the status it applies to. */
  function ContextMenu(status: RoomStatusType): (m: seq<MenuItem>)
    ensures 3 <= |m| <= 4
    ensures m[|m| - 2] == Separator && m[|m| - 1] == Action("View Details", ViewDetailsRequested)
    ensures Separator !in m[..|m| - 2] && Action("View Details", ViewDetailsRequested) !in m[..|m| - 2]
    ensures Action("Reserve Room", ReserveRoomRequested) in m <==> status == Available
    ensures Action("Mark Under Maintenance", MaintenanceRequested) in m <==> status == Available
    ensures Action("Check In", CheckInRequested) in m <==> status == Reserved
    ensures Action("Cancel Reservation", CancelReservationRequested) in m <==> status == Reserved
    ensures Action("Check Out", CheckOutRequested) in m <==> status == Occupied
    ensures Action("Extend Stay", ExtendStayRequested) in m <==> status == Occupied
    ensures Action("Mark as Available", MarkAsAvailableRequested) in m <==>
      status == CleaningInProgress || status == UnderMaintenance
  {
    StatusActions(status) + [Separator, Action("View Details", ViewDetailsRequested)]
  }

  class RoomViewModel {
    const room: Room
    var currentStatus: RoomStatusType
    var selectedDate: DateTime
    var isSelected: bool

    /** The shown status is the room's status on the chosen date. */
    predicate ShowsSelectedDate()
      reads this
    {
      currentStatus == GetStatusForDate(room, selectedDate)
    }

    /** A tile for `room` on `selectedDate`, showing that day's status. */
    constructor(room: Room, selectedDate: DateTime)
      ensures this.room == room && this.selectedDate == selectedDate && !isSelected
      ensures ShowsSelectedDate()
    {
      this.room := room;
      this.selectedDate := selectedDate;
      currentStatus := GetStatusForDate(room, selectedDate);
      isSelected := false;
    }

    /** The `SelectedDate` setter: a different date looks the status up
        again, so the tile keeps showing the chosen day; the same date
        changes nothing. */
    method SetSelectedDate(value: DateTime)
      modifies `selectedDate, `currentStatus
      ensures selectedDate == value
      ensures value != old(selectedDate) ==> ShowsSelectedDate()
      ensures value == old(selectedDate) ==> currentStatus == old(currentStatus)
      ensures old(ShowsSelectedDate()) ==> ShowsSelectedDate()
    {
      if value != selectedDate {
        selectedDate := value;
        currentStatus := GetStatusForDate(room, value);
      }
    }

    /** The `CurrentStatus` setter: the shown status is overwritten, the
        date kept. */
    method SetCurrentStatus(value: RoomStatusType)
      modifies `currentStatus
      ensures currentStatus == value
    {
      currentStatus := value;
    }

    /** `StatusColor`: the colour of the shown status, never the grey. */
    function StatusColor(): (c: Color)
      reads this
      ensures c == ColorOf(currentStatus) && c != LightGray
    {
      ColorOf(currentStatus)
    }

    /** `GetContextMenu`: the menu of the shown status. */
    function GetContextMenu(): (m: seq<MenuItem>)
      reads this
      ensures m == ContextMenu(currentStatus)
      ensures m[|m| - 1] == Action("View Details", ViewDetailsRequested)
    {
      ContextMenu(currentStatus)
    }
  }
}
