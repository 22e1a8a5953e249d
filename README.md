# Hotel management: room status and reservation engine

A Dafny model of the core of a desktop hotel management system. It covers:

- **Rooms.** A room's status on a given date comes from its append-only status history. The model also covers whether a room is free for a window of dates.
- **Reservations.** The model covers their night count and price, their reservation number and their lifecycle: pending, confirmed, checked in, checked out, cancelled, or no-show.
- **Repositories.** These are the queries the data layer runs over the room, status, reservation and guest tables.
- **Services.**
  - The room service checks availability and appends status rows.
  - The reservation service books, updates, cancels, checks in, checks out, extends and records payment.
  - The guest service keeps e-mail addresses and identification documents unique.
- **UI commands.** Reserve a room, check in, check out.
- **View models.** The booking form and the room-board tile.

How the source's concepts are modelled:

- **The database** is one object, `HotelData.HotelDb`.
  - It holds one sequence per table, in insertion order, and a key counter per table.
  - An "include" of related rows is the table filtered by foreign key.
  - `Valid()` says that keys are unique and below their counter.
- **Timestamps** are natural numbers of 100-nanosecond ticks, and a calendar date is `tick / TicksPerDay`. Money is an exact integer.
- **Null text** is the empty string. Null dates and amounts are `Option`.
- **Exceptions** are `Outcome.Threw`, so a thrown error stays distinct from a `false` answer.
- **The clock and the random GUID** are parameters: `now` is the clock, and `guid` holds the GUID's hex digits.
- **Services, commands and view models** are classes. Their collaborators are `const` fields.

The property the model keeps throughout is **no double booking**: no two non-cancelled reservations of a room have overlapping stays (`ReservationServices.NoDoubleBooking`). Every mutating operation of the reservation service, and every command, either preserves it or names the one case its guarantee leaves open: an update that revives a cancelled reservation, and an extension over a stay that lies wholly within the day after the old check-out. Each of the two can double-book, as a concrete case shows, but need not.

## Model

| member | source | states |
|---|---|---|
| Dates.DayOfAddDays | HotelManagementSystem/UI/ViewModels/ReservationViewModel.cs:127 | adding n days moves the calendar date by exactly n |
| Dates.DayMonotone | HotelManagementSystem/Core/Models/Room.cs:50 | a later timestamp never has an earlier calendar date |
| Dates.CivilFromDayNumber | HotelManagementSystem/Core/Models/Reservation.cs:69 | a day number gives a valid year, month and day; the year is at most 9999 within the DateTime range |
| Dates.CivilRoundTrip | HotelManagementSystem/Core/Models/Reservation.cs:69 | converting a day number to a calendar date and back gives the same day number |
| Text.Contains | HotelManagementSystem/Data/Repositories/RoomRepository.cs:66-68 | true exactly when the term occurs at some position |
| Text.ToUpper | HotelManagementSystem/Core/Models/Reservation.cs:69 | upper-cases character by character and keeps the length |
| Text.DigitsRoundTrip | HotelManagementSystem/Core/Models/Reservation.cs:69 | a zero-padded number reads back as the same number |
| Linq.Where | HotelManagementSystem/Data/Repositories/RoomRepository.cs:41 | keeps exactly the matching elements, with their multiplicities |
| Linq.FirstOrDefault | HotelManagementSystem/UI/Commands/CheckInCommand.cs:34-37 | finds a matching element, and finds none exactly when none matches |
| ReservationModel.GetNumberOfNights | HotelManagementSystem/Core/Models/Reservation.cs:55-58 | the whole-day count by which check-in's date must move to reach check-out's date, non-negative exactly when check-out's date is not earlier, and the reverse move when it is |
| ReservationModel.NightsAdditive | HotelManagementSystem/Core/Models/Reservation.cs:55-58 | the nights of consecutive spans add up |
| ReservationModel.NightsIgnoreTimeOfDay | HotelManagementSystem/Core/Models/Reservation.cs:55-58 | only the calendar dates count |
| ReservationModel.NightsOfAddDays | HotelManagementSystem/Core/Models/Reservation.cs:55-58 | moving the check-out n days later adds n nights |
| ReservationModel.SameDayStayHasNoNights | HotelManagementSystem/Core/Models/Reservation.cs:55-58 | a later check-out on the same day is zero nights |
| ReservationModel.FormatDate | HotelManagementSystem/Core/Models/Reservation.cs:69 | eight digits: year, month and day of the timestamp's calendar date |
| ReservationModel.GuidPrefix | HotelManagementSystem/Core/Models/Reservation.cs:69 | the GUID's first eight hex digits, upper-case |
| ReservationModel.UpperHexDigit | HotelManagementSystem/Core/Models/Reservation.cs:69 | upper-casing a lower-case hex digit gives the upper-case digit |
| ReservationModel.GenerateReservationNumber | HotelManagementSystem/Core/Models/Reservation.cs:67-70 | 21 characters: "RES-", the creation date as yyyyMMdd, "-", then eight upper-case GUID digits |
| ReservationModel.NewReservation | HotelManagementSystem/Core/Models/Reservation.cs:60-65 | a new reservation is pending, unsaved and created now, with a "RES-" number, and nothing priced or paid |
| RoomModel.DecidingEntry | HotelManagementSystem/Core/Models/Room.cs:49-52 | picks an entry dated on or before the day with the latest timestamp, the first of equal timestamps; picks none exactly when every entry is later |
| RoomModel.DecidingEntryUnique | HotelManagementSystem/Core/Models/Room.cs:49-52 | at most one entry decides a day |
| RoomModel.GetStatusForDate | HotelManagementSystem/Core/Models/Room.cs:47-55 | Available when no entry is dated on or before the day; otherwise the deciding entry's status |
| RoomModel.StatusIgnoresTimeOfDay | HotelManagementSystem/Core/Models/Room.cs:47-55 | two times on the same day give the same status |
| RoomModel.AppendLaterEntry | HotelManagementSystem/Core/Models/Room.cs:47-55 | an entry dated after the day does not change that day's status |
| RoomModel.AppendLatestEntry | HotelManagementSystem/Core/Models/Room.cs:47-55 | an entry newer than every entry on or before the day decides it |
| RoomModel.AppendTiedEntry | HotelManagementSystem/Core/Models/Room.cs:51 | an entry with the same timestamp as the deciding one does not take over |
| RoomModel.IsAvailable | HotelManagementSystem/Core/Models/Room.cs:57-72 | free exactly when no maintenance or cleaning entry is dated within the window's dates and no non-cancelled reservation overlaps it, bounds included |
| RoomModel.NonBlockingEntry | HotelManagementSystem/Core/Models/Room.cs:59-63 | appending an Available, Occupied or Reserved entry never changes availability |
| RoomModel.MoreRecordsNeverFree | HotelManagementSystem/Core/Models/Room.cs:57-72 | adding rows never frees a room |
| RoomModel.SubWindowAvailable | HotelManagementSystem/Core/Models/Room.cs:57-72 | a room free for a window is free for any window inside it |
| RoomModel.ReservationBlocksWindow | HotelManagementSystem/Core/Models/Room.cs:69-71 | a window starting at a stay's check-out instant is blocked by it |
| HotelData.StatusesOf | HotelManagementSystem/Data/Repositories/RoomRepository.cs:23 | exactly the status rows of the room |
| HotelData.StatusesOfAppend | HotelManagementSystem/Data/Repositories/RoomRepository.cs:81-94 | a new row joins its own room's history, at the end, and no other room's |
| HotelData.WithDetails | HotelManagementSystem/Data/Repositories/RoomRepository.cs:19-26 | the room with exactly its status rows and its reservations |
| HotelData.KeysBelowRemove | HotelManagementSystem/Core/Services/RoomService.cs:67-79 | removing a row keeps the remaining keys below the counter |
| HotelData.HotelDb.constructor | HotelManagementSystem/Data/Context/HotelDbContext.cs:27-68 | an empty, valid store |
| HotelData.HotelDb.RoomIndex | HotelManagementSystem/Core/Services/RoomService.cs:24-27 | the position of the room with the key, or none when no row has it |
| HotelData.HotelDb.ReservationIndex | HotelManagementSystem/Data/Repositories/ReservationRepository.cs:27-34 | the position of the reservation with the key, or none when no row has it |
| HotelData.HotelDb.GuestIndex | HotelManagementSystem/Data/Repositories/GuestRepository.cs:24-30 | the position of the guest with the key, or none when no row has it |
| HotelData.HotelDb.RoomsWithDetails | HotelManagementSystem/Data/Repositories/RoomRepository.cs:19-26 | every room, in order, with its details |
| HotelData.HotelDb.RoomWithDetails | HotelManagementSystem/Data/Repositories/RoomRepository.cs:28-36 | found exactly when the key is stored; then that room with its details |
| HotelData.HotelDb.RoomIndexUnique | HotelManagementSystem/Core/Services/RoomService.cs:24-27 | in a valid store, a room's own key finds that room's row |
| HotelData.HotelDb.ReservationIndexUnique | HotelManagementSystem/Data/Repositories/ReservationRepository.cs:27-34 | in a valid store, a reservation's own key finds that reservation's row |
| HotelData.HotelDb.GuestIndexUnique | HotelManagementSystem/Data/Repositories/GuestRepository.cs:24-30 | in a valid store, a guest's own key finds that guest's row |
| HotelData.HotelDb.AddRoom | HotelManagementSystem/Core/Services/RoomService.cs:54-59 | stores the room under the next key; the store stays valid |
| HotelData.HotelDb.DeleteRoomAt | HotelManagementSystem/Core/Services/RoomService.cs:72-73 | removes exactly that room row; the store stays valid |
| HotelData.HotelDb.AddRoomStatus | HotelManagementSystem/Data/Repositories/RoomRepository.cs:92-93 | appends exactly that status row |
| HotelData.HotelDb.AddReservation | HotelManagementSystem/Core/Services/ReservationService.cs:96-97 | stores the reservation under the next key; the store stays valid |
| HotelData.HotelDb.UpdateReservationAt | HotelManagementSystem/Core/Services/ReservationService.cs:254-255 | overwrites exactly that row, keeping its key |
| HotelData.HotelDb.AddGuest | HotelManagementSystem/Core/Services/GuestService.cs:60-61 | stores the guest under the next key; the store stays valid |
| HotelData.HotelDb.UpdateGuestAt | HotelManagementSystem/Core/Services/GuestService.cs:92-93 | overwrites exactly that row, keeping its key |
| HotelData.HotelDb.DeleteGuestAt | HotelManagementSystem/Core/Services/GuestService.cs:111-112 | removes exactly that guest row; the store stays valid |
| RoomRepository.GetAvailableRooms | HotelManagementSystem/Data/Repositories/RoomRepository.cs:38-42 | exactly the rooms free for the window, with their multiplicities |
| RoomRepository.AvailableRoomsForSubWindow | HotelManagementSystem/Data/Repositories/RoomRepository.cs:38-42 | a room listed for a window is listed for every window inside it |
| RoomRepository.GetRoomsByStatus | HotelManagementSystem/Data/Repositories/RoomRepository.cs:44-48 | exactly the rooms in that status on the date |
| RoomRepository.SearchRooms | HotelManagementSystem/Data/Repositories/RoomRepository.cs:58-70 | a blank term lists every room; otherwise exactly the rooms whose number, description or type name contains it |
| RoomRepository.SearchFindsRoomByNumber | HotelManagementSystem/Data/Repositories/RoomRepository.cs:58-70 | searching a room's own number finds it |
| RoomRepository.CountWithStatus | HotelManagementSystem/Data/Repositories/RoomRepository.cs:72-79 | a group's count is at most the number of rooms |
| RoomRepository.CountIsGroupSize | HotelManagementSystem/Data/Repositories/RoomRepository.cs:72-79 | a count equals the size of the status group, and is positive exactly when some room has that status |
| RoomRepository.GetRoomStatusSummary | HotelManagementSystem/Data/Repositories/RoomRepository.cs:72-79 | keys are exactly the statuses some room has on the date; each value is that group's positive size |
| RoomRepository.SummaryAccountsForEveryRoom | HotelManagementSystem/Data/Repositories/RoomRepository.cs:72-79 | the summary's counts add up to the number of rooms |
| RoomRepository.CountsAddUp | HotelManagementSystem/Data/Repositories/RoomRepository.cs:72-79 | the five status counts add up to the number of rooms |
| RoomRepository.UpdateRoomStatus | HotelManagementSystem/Data/Repositories/RoomRepository.cs:81-94 | appends exactly one row carrying the arguments |
| ReservationRepository.GetReservationsByGuest | HotelManagementSystem/Data/Repositories/ReservationRepository.cs:44-51 | exactly the guest's reservations, with their multiplicities |
| ReservationRepository.GetReservationsByRoom | HotelManagementSystem/Data/Repositories/ReservationRepository.cs:53-60 | exactly the room's reservations, with their multiplicities |
| ReservationRepository.GetReservationsByStatus | HotelManagementSystem/Data/Repositories/ReservationRepository.cs:73-80 | exactly the reservations in the status, with their multiplicities |
| ReservationRepository.ReservationsByRoomAppend | HotelManagementSystem/Core/Services/ReservationService.cs:46-49 | a new reservation joins its own room's list, at the end |
| ReservationRepository.GetReservationsByDateRange | HotelManagementSystem/Data/Repositories/ReservationRepository.cs:62-71 | exactly the reservations overlapping the range that are neither cancelled nor no-shows |
| ReservationRepository.DateRangeMonotone | HotelManagementSystem/Data/Repositories/ReservationRepository.cs:62-71 | widening the range never drops a reservation |
| ReservationRepository.GetCheckInsForDate | HotelManagementSystem/Data/Repositories/ReservationRepository.cs:82-89 | exactly the confirmed reservations arriving on the date |
| ReservationRepository.GetCheckOutsForDate | HotelManagementSystem/Data/Repositories/ReservationRepository.cs:91-98 | exactly the checked-in reservations departing on the date |
| ReservationRepository.ArrivalsAndDeparturesDisjoint | HotelManagementSystem/Data/Repositories/ReservationRepository.cs:82-98 | no reservation is both an arrival and a departure |
| ReservationRepository.GetReservationByNumber | HotelManagementSystem/Data/Repositories/ReservationRepository.cs:36-42 | a reservation with the number, or none exactly when no reservation has it |
| ReservationRepository.ReservationByOwnNumber | HotelManagementSystem/Data/Context/HotelDbContext.cs:65-67 | under unique numbers, a reservation's own number finds it |
| ReservationRepository.GetRevenueForPeriod | HotelManagementSystem/Data/Repositories/ReservationRepository.cs:100-109 | zero when nothing qualifies; its value on any table is fixed by RevenueOfOne and RevenueAppend |
| ReservationRepository.RevenueOfOne | HotelManagementSystem/Data/Repositories/ReservationRepository.cs:100-109 | one reservation brings in its TotalPrice exactly when it was checked out within the period and is paid, and nothing otherwise; with RevenueAppend this fixes the revenue as the sum of the qualifying prices |
| ReservationRepository.RevenueAppend | HotelManagementSystem/Data/Repositories/ReservationRepository.cs:100-109 | the revenue of two tables joined is the sum of their revenues |
| ReservationRepository.RevenueIgnoresNonQualifying | HotelManagementSystem/Data/Repositories/ReservationRepository.cs:100-109 | a reservation that does not qualify adds nothing |
| ReservationRepository.RevenueSplitWindow | HotelManagementSystem/Data/Repositories/ReservationRepository.cs:100-109 | a period's revenue is the sum of the revenues of its two halves |
| ReservationRepository.RevenueNonNegative | HotelManagementSystem/Data/Repositories/ReservationRepository.cs:100-109 | non-negative when every price is |
| RoomServices.AvailableMeansFree | HotelManagementSystem/Core/Services/RoomService.cs:91-98 | the availability test on a room's loaded details decides the same as the test on the whole store |
| RoomServices.StatusRowsBlock | HotelManagementSystem/Data/Repositories/RoomRepository.cs:32 | a room's status rows block a window exactly when some row of that room in the table does |
| RoomServices.ReservationRowsBlock | HotelManagementSystem/Data/Repositories/RoomRepository.cs:33 | a room's reservations block a window exactly when some reservation of that room in the table does |
| RoomServices.RoomService.constructor | HotelManagementSystem/Core/Services/RoomService.cs:14-17 | the service works on the given store |
| RoomServices.RoomService.IsRoomAvailable | HotelManagementSystem/Core/Services/RoomService.cs:91-98 | true exactly when the room is stored and no status row or reservation of the room blocks the window |
| RoomServices.RoomService.UpdateRoomStatus | HotelManagementSystem/Core/Services/RoomService.cs:81-89 | true exactly for a stored room, which gets exactly one new row; an unknown room gets none |
| RoomServices.RoomService.AddRoom | HotelManagementSystem/Core/Services/RoomService.cs:54-59 | stores the room under a fresh key |
| RoomServices.RoomService.DeleteRoom | HotelManagementSystem/Core/Services/RoomService.cs:67-79 | an unknown key throws KeyNotFound and changes nothing; otherwise exactly that room is removed and no room keeps the key |
| GuestRepository.GetGuestByEmail | HotelManagementSystem/Data/Repositories/GuestRepository.cs:32-39 | none for a blank address; otherwise a holder of the address, or none exactly when nobody holds it |
| GuestRepository.GetGuestByIdentification | HotelManagementSystem/Data/Repositories/GuestRepository.cs:41-50 | none when the type or the number is blank; otherwise a holder of the document, or none exactly when nobody holds it |
| GuestRepository.SearchGuests | HotelManagementSystem/Data/Repositories/GuestRepository.cs:52-66 | a blank term lists everybody; otherwise exactly the guests whose first or last name, e-mail, phone or identification number contains it |
| GuestRepository.SearchFindsGuestByLastName | HotelManagementSystem/Data/Repositories/GuestRepository.cs:52-66 | searching a guest's own last name finds the guest |
| GuestRepository.EmailLookupFindsOwner | HotelManagementSystem/Data/Repositories/GuestRepository.cs:32-39 | with unique identities, a guest's own address finds that guest |
| GuestRepository.IdentificationLookupFindsOwner | HotelManagementSystem/Data/Repositories/GuestRepository.cs:41-50 | with unique identities, a guest's own document finds that guest |
| GuestRepository.UniqueIdentitiesAppend | HotelManagementSystem/Core/Services/GuestService.cs:43-63 | adding a guest whose address and document nobody holds keeps identities unique |
| GuestRepository.UniqueIdentitiesReplace | HotelManagementSystem/Core/Services/GuestService.cs:65-95 | replacing a guest with one whose address and document no other guest holds keeps identities unique |
| GuestRepository.UniqueIdentitiesRemove | HotelManagementSystem/Core/Services/GuestService.cs:97-114 | removing a guest keeps identities unique |
| GuestServices.ExistingByEmail | HotelManagementSystem/Core/Services/GuestService.cs:46-48 | finds a holder exactly when the address is not blank and somebody holds it |
| GuestServices.UpdateKeepsIdentities | HotelManagementSystem/Core/Services/GuestService.cs:71-90 | an update that passes both conflict checks keeps identities unique |
| GuestServices.HasActiveReservations | HotelManagementSystem/Core/Services/GuestService.cs:104-106 | true exactly when some reservation of the guest is confirmed or checked in |
| GuestServices.GuestService.constructor | HotelManagementSystem/Core/Services/GuestService.cs:13-16 | the service works on the given store |
| GuestServices.GuestService.Create | HotelManagementSystem/Core/Services/GuestService.cs:43-63 | an address already held throws first; then a document already held throws; otherwise the guest is stored under a fresh key. Unique identities are kept |
| GuestServices.GuestService.Update | HotelManagementSystem/Core/Services/GuestService.cs:65-95 | an unknown key answers false; an address or document changed to one another guest holds throws; otherwise the guest row is replaced. Unique identities are kept |
| GuestServices.GuestService.Delete | HotelManagementSystem/Core/Services/GuestService.cs:97-114 | an unknown key answers false; a guest with a confirmed or checked-in reservation throws; otherwise exactly that guest row goes, and no active reservation names the key |
| ReservationServices.ClashSymmetric | HotelManagementSystem/Core/Models/Room.cs:69-71 | two reservations clash in either order or in neither |
| ReservationServices.FreeInStoreWindow | HotelManagementSystem/Core/Services/RoomService.cs:91-98 | a window the room service reports free is not overlapped by any non-cancelled reservation of the room, and the room is stored |
| ReservationServices.BookingKeepsNoDoubleBooking | HotelManagementSystem/Core/Services/ReservationService.cs:76-108 | adding a stay whose window is free keeps the table free of double bookings |
| ReservationServices.MoveKeepsNoDoubleBooking | HotelManagementSystem/Core/Services/ReservationService.cs:110-153 | replacing a row with a stay whose window is free of every other row keeps the table free of double bookings |
| ReservationServices.ReplaceKeepsNoDoubleBooking | HotelManagementSystem/Core/Services/ReservationService.cs:155-227 | cancelling a row, or keeping its room and dates with the row not cancelled, keeps the table free of double bookings |
| ReservationServices.ExtensionKeepsPriceRule | HotelManagementSystem/Core/Services/ReservationService.cs:246-250 | a reservation priced at base price times nights stays so priced after the extra nights are charged |
| ReservationServices.ReviveCanDoubleBook | HotelManagementSystem/Core/Services/ReservationService.cs:118-124 | an update that only turns a cancelled reservation back to confirmed skips the check and can double-book a room |
| ReservationServices.ExtensionStart | HotelManagementSystem/Core/Services/ReservationService.cs:236-239 | the window the source checks starts exactly one day after the old check-out instant |
| ReservationServices.Extended | HotelManagementSystem/Core/Services/ReservationService.cs:245-252 | only the check-out, price and audit fields change; the price rule is kept; a later check-out day never lowers a non-negative-rate price |
| ReservationServices.ExtensionCheckMissesShortStay | HotelManagementSystem/Core/Services/ReservationService.cs:236-239 | a stay lying wholly within the day after the old check-out passes the source's check, and the extension then double-books; so the condition of `ExtensionKeepsNoDoubleBooking` cannot be dropped |
| ReservationServices.ExtensionKeepsNoDoubleBooking | HotelManagementSystem/Core/Services/ReservationService.cs:236-252 | with well-formed stays and no live stay of the room lying wholly within the day after the old check-out, an extension whose window, as the source checks it, is free keeps the table free of double bookings |
| ReservationServices.CorrectedExtensionStart | HotelManagementSystem/Core/Services/ReservationService.cs:236-239 | the corrected window starts after the old check-out and no later than the next calendar day |
| ReservationServices.CorrectedExtensionKeepsNoDoubleBooking | HotelManagementSystem/Core/Services/ReservationService.cs:229-258 | with well-formed stays, an extension whose corrected window is free keeps the table free of double bookings |
| ReservationServices.ReplaceOnlyDates | HotelManagementSystem/Core/Services/ReservationService.cs:249-252 | changing the price or audit fields of a row never creates a clash |
| ReservationServices.ReservationService.constructor | HotelManagementSystem/Core/Services/ReservationService.cs:16-24 | the service works on the given store and room service |
| ReservationServices.ReservationService.Create | HotelManagementSystem/Core/Services/ReservationService.cs:76-108 | throws exactly when the room is not available, and then changes nothing. Otherwise the reservation is stored as confirmed, created now, priced at base price times nights, with one Reserved row at check-in. No double booking is created |
| ReservationServices.ReservationService.Store | HotelManagementSystem/Core/Services/ReservationService.cs:87-107 | the success path of Create once the window is known free: the next id, confirmed, created now, priced by nights, appended, with one Reserved row; rooms and guests unchanged and no double booking created |
| ReservationServices.ReservationService.Move | HotelManagementSystem/Core/Services/ReservationService.cs:121-146 | the success path of Update when room or dates change and the window is free: one Reserved row, the stay re-priced by nights and marked modified now, written over its own row only; no double booking created |
| ReservationServices.ReservationService.Update | HotelManagementSystem/Core/Services/ReservationService.cs:110-153 | an unknown key answers false. With room and dates unchanged, it stores the caller's values with no check and no row. Otherwise an unavailable room throws, or the stay is re-priced and stored with one Reserved row. No double booking is created except by reviving a cancelled row |
| ReservationServices.ReservationService.Cancel | HotelManagementSystem/Core/Services/ReservationService.cs:155-177 | true exactly for a stored key: the row becomes cancelled with an Available row at the moment of cancelling when its room is stored; no double booking is created |
| ReservationServices.ReservationService.CheckIn | HotelManagementSystem/Core/Services/ReservationService.cs:179-202 | true exactly for a stored confirmed reservation: it becomes checked in at the given time, with an Occupied row at that time |
| ReservationServices.ReservationService.CheckOut | HotelManagementSystem/Core/Services/ReservationService.cs:204-227 | true exactly for a stored checked-in reservation: it becomes checked out at the given time, with a CleaningInProgress row at that time |
| ReservationServices.ReservationService.ExtendStay | HotelManagementSystem/Core/Services/ReservationService.cs:229-258 | false unless the reservation is stored and checked in. Throws when the window from one day after the old check-out to the new check-out is not free. Otherwise the new check-out and the extra nights' charge are stored with no row. Over well-formed stays with no stay hidden in the day after the old check-out, no double booking is created |
| ReservationServices.ReservationService.MarkAsPaid | HotelManagementSystem/Core/Services/ReservationService.cs:260-285 | true exactly for a stored key. An amount covering the price marks it paid with the price as deposit; otherwise the amount becomes the deposit. The paid flag ends true exactly when it was already true or the amount covers the price |
| Commands.ExecutedBy | HotelManagementSystem/UI/Commands/CommandBase.cs:10-13 | the given name, or "Unknown" when none is given |
| Commands.ReservationFor | HotelManagementSystem/UI/Commands/ReserveRoomCommand.cs:52-67 | the command's room, guest, dates and guest count; confirmed; created by the executor; priced at base price times nights; number and creation time of the blank reservation |
| Commands.ReserveRoomCommand.constructor | HotelManagementSystem/UI/Commands/ReserveRoomCommand.cs:19-37 | keeps the arguments; the executor defaults to "Unknown" |
| Commands.ReserveRoomCommand.Execute | HotelManagementSystem/UI/Commands/ReserveRoomCommand.cs:39-80 | true exactly when the room was available. Then one confirmed reservation and two identical Reserved rows are stored, and no double booking is created; otherwise nothing changes |
| Commands.ReserveRoomCommand.Book | HotelManagementSystem/UI/Commands/ReserveRoomCommand.cs:69-77 | stores the priced reservation and records the Reserved row twice |
| Commands.FindCheckInCandidate | HotelManagementSystem/UI/Commands/CheckInCommand.cs:33-37 | a confirmed reservation of the room whose stay covers the date, or none exactly when there is none |
| Commands.FindCheckedIn | HotelManagementSystem/UI/Commands/CheckOutCommand.cs:33-36 | a checked-in reservation of the room, or none exactly when there is none |
| Commands.FoundByOwnKey | HotelManagementSystem/UI/Commands/CheckInCommand.cs:43-46 | in a valid store, a listed reservation's key leads back to it |
| Commands.CheckInCommand.constructor | HotelManagementSystem/UI/Commands/CheckInCommand.cs:16-28 | keeps the arguments; the executor defaults to "Unknown" |
| Commands.CheckInCommand.Execute | HotelManagementSystem/UI/Commands/CheckInCommand.cs:30-60 | true exactly when a candidate exists: it is checked in at the command's date, and a known room gets two identical Occupied rows, the service's and then the command's. No double booking is created |
| Commands.CheckOutCommand.constructor | HotelManagementSystem/UI/Commands/CheckOutCommand.cs:16-28 | keeps the arguments; the executor defaults to "Unknown" |
| Commands.CheckOutCommand.Execute | HotelManagementSystem/UI/Commands/CheckOutCommand.cs:30-57 | true exactly when a checked-in reservation of the room exists: it is checked out at the command's date, and a known room gets two CleaningInProgress rows. No double booking is created |
| ReservationViewModels.StoredRoom | HotelManagementSystem/Data/Repositories/ReservationRepository.cs:30 | the stored room with the key, or none exactly when no room has it |
| ReservationViewModels.StoredGuest | HotelManagementSystem/Data/Repositories/ReservationRepository.cs:32 | the stored guest with the key, or none exactly when no guest has it |
| ReservationViewModels.ReservationViewModel.constructor | HotelManagementSystem/UI/ViewModels/ReservationViewModel.cs:116-133 | a pending new reservation; a one-night stay from today's midnight, so the dates are ordered; one guest; nothing paid; availability false |
| ReservationViewModels.ReservationViewModel.UpdateTotalPrice | HotelManagementSystem/UI/ViewModels/ReservationViewModel.cs:210-218 | with a room selected, the price is its base price times the nights; otherwise unchanged |
| ReservationViewModels.ReservationViewModel.CheckRoomAvailability | HotelManagementSystem/UI/ViewModels/ReservationViewModel.cs:220-227 | with a room selected, the flag is the room service's answer for the dates; otherwise unchanged |
| ReservationViewModels.ReservationViewModel.SetSelectedRoom | HotelManagementSystem/UI/ViewModels/ReservationViewModel.cs:27-38 | a different room re-prices the stay; availability is not re-checked |
| ReservationViewModels.ReservationViewModel.SetSelectedGuest | HotelManagementSystem/UI/ViewModels/ReservationViewModel.cs:40-44 | stores the guest |
| ReservationViewModels.ReservationViewModel.SetCheckOutDate | HotelManagementSystem/UI/ViewModels/ReservationViewModel.cs:63-77 | a date not after check-in becomes check-in plus one day, so the dates always end ordered; a change re-prices and re-checks |
| ReservationViewModels.ReservationViewModel.SetCheckInDate | HotelManagementSystem/UI/ViewModels/ReservationViewModel.cs:46-61 | a change pushes a check-out that is not later to one day after the new check-in, then re-prices and re-checks; the dates end ordered after a change and stay ordered otherwise |
| ReservationViewModels.ReservationViewModel.SetDeposit | HotelManagementSystem/UI/ViewModels/ReservationViewModel.cs:97-111 | a changed deposit sets paid exactly when it covers the shown price; an equal deposit leaves the flag alone |
| ReservationViewModels.ReservationViewModel.InitializeForNew | HotelManagementSystem/UI/ViewModels/ReservationViewModel.cs:135-149 | an unsaved, pending reservation with the form's dates, guest count, payment and notes, created now by "User" |
| ReservationViewModels.ReservationViewModel.Load | HotelManagementSystem/UI/ViewModels/ReservationViewModel.cs:151-178 | an unknown key changes nothing; otherwise every field is copied from the stored reservation, room and guest, a missing deposit showing as 0, with no re-pricing or date clamp |
| ReservationViewModels.ReservationViewModel.Show | HotelManagementSystem/UI/ViewModels/ReservationViewModel.cs:156-166 | the form shows exactly the given reservation, room and guest |
| ReservationViewModels.ReservationViewModel.Draft | HotelManagementSystem/UI/ViewModels/ReservationViewModel.cs:185-194 | the held reservation with the form's room, guest, dates, payment and price; it obeys the pricing rule whenever the shown price does |
| ReservationViewModels.ReservationViewModel.Save | HotelManagementSystem/UI/ViewModels/ReservationViewModel.cs:180-208 | without a room or a guest: false, nothing sent. An unsaved draft is created: it throws exactly when the room is unavailable, otherwise the held reservation is the stored one and exactly one Reserved row is added. A saved draft is updated with the service's three cases on the draft: no row found answers true with nothing changed; same room and dates stores the draft stamped now with no row; otherwise it throws exactly when the room is unavailable, or stores the re-priced draft with one Reserved row. No double booking is created except by reviving a cancelled reservation |
| ReservationViewModels.ReservationViewModel.SaveNew | HotelManagementSystem/UI/ViewModels/ReservationViewModel.cs:196-200 | the create path: the service's outcome on the draft, with the held reservation set to what was stored |
| ReservationViewModels.ReservationViewModel.SaveExisting | HotelManagementSystem/UI/ViewModels/ReservationViewModel.cs:201-205 | the update path: the service's three cases on the draft, with the held reservation set to what was stored |
| RoomViewModels.ColorOf | HotelManagementSystem/UI/ViewModels/RoomViewModel.cs:53-67 | every status has a colour and the fallback grey is never used; green exactly for Available, coral exactly for Occupied |
| RoomViewModels.ColorsDistinct | HotelManagementSystem/UI/ViewModels/RoomViewModel.cs:57-65 | two statuses with the same colour are the same status |
| RoomViewModels.ContextMenu | HotelManagementSystem/UI/ViewModels/RoomViewModel.cs:76-121 | three or four items ending with a separator and "View Details", neither appearing earlier; each action is offered exactly in the status it applies to |
| RoomViewModels.RoomViewModel.constructor | HotelManagementSystem/UI/ViewModels/RoomViewModel.cs:69-74 | the tile shows the room's status on the chosen date |
| RoomViewModels.RoomViewModel.SetSelectedDate | HotelManagementSystem/UI/ViewModels/RoomViewModel.cs:34-45 | a new date shows that date's status; the same date changes nothing; the tile keeps showing the chosen date |
| RoomViewModels.RoomViewModel.SetCurrentStatus | HotelManagementSystem/UI/ViewModels/RoomViewModel.cs:28-32 | the shown status is overwritten |
| RoomViewModels.RoomViewModel.StatusColor | HotelManagementSystem/UI/ViewModels/RoomViewModel.cs:53-67 | the colour of the shown status, never grey |
| RoomViewModels.RoomViewModel.GetContextMenu | HotelManagementSystem/UI/ViewModels/RoomViewModel.cs:76-121 | the menu of the shown status, ending with "View Details" |

## Left out

- Asynchrony, the Entity Framework change tracker, and SQL. Each awaited call is one atomic step on the store. Every `SaveChangesAsync` succeeds.
- ReservationServices.ReservationService.Update: the model compares the stored row and the caller's reservation as two values, so it does not capture aliasing through the change tracker. The running application resolves everything from one scope (HotelManagementSystem/Program.cs:215-218), and the main form hands its own services to the reservation form (HotelManagementSystem/UI/Forms/MainForm.cs:176). An edited reservation is then the tracked entity itself: `LoadReservationAsync` keeps it (HotelManagementSystem/UI/ViewModels/ReservationViewModel.cs:153), and the save writes the form's values into it in place (HotelManagementSystem/UI/ViewModels/ReservationViewModel.cs:186-194). The reload at HotelManagementSystem/Core/Services/ReservationService.cs:112 hands back that same object, so the comparisons at lines 117-119 are all false. An edit made through the form would then skip the availability check, the re-price and the `Reserved` row, which the model's `Update` and `ReservationViewModel.Save` both perform whenever the room or a date changed.
- ReservationViewModels.ReservationViewModel.Save: for the same reason, its update path states what the service does with a detached copy of the draft, not with the tracked entity the form edits.
- Database constraints are not enforced: foreign-key restrict and cascade rules, and the unique indexes on room number, e-mail and reservation number. Deleting a room or guest that reservations still name removes only the row, where the database would refuse or cascade.
- GuestServices.GuestService.Delete: removes a guest who has only inactive reservations. The database's restrict rule on the reservation's guest key would make that save fail.
- SQL collation is not modelled. String comparison and `Contains` are ordinal here; the database may compare case-insensitively.
- Objects shared by reference are not modelled. The services change the caller's reservation object, and the model returns that object after the call (`reservationAfter`). A key the caller puts on a new reservation is ignored: the store always assigns the next key.
- Each operation reads the clock once, as `now`. The source reads `DateTime.Now` several times, and once in the command and again in the service.
- DateTime range checks (`AddDays` past year 9999 throws) and decimal overflow are not modelled.
- Constructor null checks that throw `ArgumentNullException` are left out. Null collaborators cannot occur here.
- `RoomService.GetRoomsByTypeAsync`, `UpdateRoomAsync`, the `GetAll…` and pass-through `Get…` service methods, and `IRepository`'s generic members are not modelled beyond the store operations above.
- ReservationViewModels.ReservationViewModel.CheckRoomAvailability: the source fires it without awaiting (`async void`). Here it completes before the setter returns, so a late answer overwriting a newer one is not modelled.
- ReservationViewModels.ReservationViewModel.SetSelectedRoom: `SetProperty` compares rooms by reference. Here rooms are compared by value, so re-selecting an equal copy of the room does not re-price.
- The view models' change notifications (`OnPropertyChanged`), their unused guest service, and the plain `NumberOfGuests`, `Notes`, `IsPaid` and `IsSelected` setters are left out. Those fields are assigned directly.
- The context menu's event handlers are left out. Each menu item carries the request it would raise.
- The pass-through display properties of the room tile are left out.
- `ViewModelBase` is not part of this model. Its `SetProperty` is taken to store a differing value and report whether it changed.
- ReservationModel.FormatDate: assumes the current culture uses the Gregorian calendar. `{DateTime.Now:yyyyMMdd}` formats with the current culture's calendar, so under a culture with another calendar (Thai Buddhist, Um Al-Qura) the digits differ.
- ReservationModel.GenerateReservationNumber: its date digits assume a Gregorian current culture, for the reason given for `FormatDate`.
- Commands.ReserveRoomCommand.Execute: the source's `room == null` branch cannot be reached once the room is reported available, so it has no counterpart.
- ReservationServices.ReservationService.Update: the no-double-booking guarantee excludes an update that revives a cancelled reservation without changing its room or dates. `ReviveCanDoubleBook` shows that case can double-book; it need not.

## Findings

| source | as written | input that shows it | evidently intended | confidence | as-written member | corrected member |
|---|---|---|---|---|---|---|
| HotelManagementSystem/Core/Services/ReservationService.cs:236-239 | `ExtendStayAsync` checks availability from `CheckOutDate.AddDays(1)`, a full timestamp one day after the old check-out, to the new check-out | room 1: stay A checked in from day 0 00:00 to day 1 00:00; stay B confirmed from day 1 00:00 plus one tick to plus two ticks. Extending A to day 3 passes the check, then A and B overlap | check every instant after the old check-out, so no stay the extension covers is missed | medium; not executed | ReservationServices.ExtensionCheckMissesShortStay | ReservationServices.CorrectedExtensionKeepsNoDoubleBooking |
