/** The server's table rows (backend/models/core.go, backend/models/event.go)
    and the shape of a handler's reply. Times are Go `time.Time` values,
    written as nanoseconds since Go's zero time, so 0 is the zero value
    that gorm replaces with the current time on insert. */
module ServerModels {
  import opened Common

  type Time = int

  const Second: int := 1_000_000_000
  const Minute: int := 60 * Second
  const Hour: int := 60 * Minute

  /** A bcrypt hash, kept as the secret it was made from: comparing a
      password with it succeeds exactly when the two are equal. */
  datatype PasswordHash = Bcrypt(secret: string)

  datatype User = User(
    id: string,
    username: string,
    passwordHash: PasswordHash,
    avatarColor: string,
    familyId: Option<string>,
    createdAt: Time,
    updatedAt: Time)

  /** A note row; `deletedAt` is gorm's soft-delete marker, and every query
      sees only rows where it is absent. */
  datatype Note = Note(
    id: string,
    createdAt: Time,
    updatedAt: Time,
    deletedAt: Option<Time>,
    userId: string,
    familyId: Option<string>,
    folderId: string,
    title: string,
    content: string,
    isPublic: bool,
    publicPermission: string)
  {
    predicate Live() { deletedAt.None? }

    /** `family_id IS NULL OR family_id = ''`. */
    predicate Personal() { familyId.None? || familyId == Some("") }
  }

  datatype Folder = Folder(
    id: string,
    userId: string,
    familyId: Option<string>,
    name: string,
    icon: string,
    kind: string,
    createdAt: Time)

  /** An event as the API sees it. `date` is kept in the text form the
      database stores and compares. */
  datatype Event = Event(
    id: nat,
    createdAt: Time,
    updatedAt: Time,
    deletedAt: Option<Time>,
    userId: string,
    title: string,
    description: string,
    date: string,
    kind: string,
    recurrence: string,
    notifyUsers: string,
    showCountdown: bool,
    isSystem: bool)
  {
    predicate Live() { deletedAt.None? }
  }

  /** A row of the events table. The `Event` struct has no family field;
      `familyId` is the table's `family_id` column, which only a table
      created by an older schema has, and which inserts leave NULL. */
  datatype EventRow = EventRow(event: Event, familyId: Option<string>)
  {
    predicate Personal() { familyId.None? || familyId == Some("") }
  }

  /** A JSON request body as `ShouldBindJSON` sees it: decoded into the
      handler's struct, or rejected with the decoder's message. */
  datatype Body<T> = Parsed(value: T) | Malformed(message: string)

  /** A handler's reply: a success status with its JSON value, or an error
      status with the `error` message. */
  datatype Response<T> = Ok(status: nat, value: T) | Err(status: nat, error: string)
}
