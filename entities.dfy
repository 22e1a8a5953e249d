/** The plain records of the domain: the room status enumeration, one entry
    of a room's status history, and a guest. */
module Entities {
  import opened Basics
  import opened Dates

  /** The operational state of a room. */
  datatype RoomStatusType = Available | Occupied | Reserved | UnderMaintenance | CleaningInProgress

  /** One entry of a room's status history: from `date` on, the room is in
      `status`. Entries are only ever appended. */
  datatype RoomStatus = RoomStatus(
    roomId: int,
    date: DateTime,
    status: RoomStatusType,
    notes: string,
    updatedBy: string)

  /** A guest. Optional text fields hold "" where the record has `null`. */
  datatype Guest = Guest(
    id: int,
    firstName: string,
    lastName: string,
    email: string,
    phone: string,
    address: string,
    city: string,
    state: string,
    zipCode: string,
    country: string,
    identificationNumber: string,
    identificationType: string,
    dateOfBirth: Option<DateTime>,
    notes: string)
}
