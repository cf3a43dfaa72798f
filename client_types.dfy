/** The client's record shapes (types.ts). Timestamps are epoch
    milliseconds, as `Date.now()` returns them. JavaScript objects are
    open: the client sometimes stores an object of another shape in a
    field, so the share configuration keeps every field optional and says
    separately when it has the declared shape. */
module ClientTypes {
  import opened Common

  datatype Permission = Read | Edit

  datatype Attachment = Attachment(
    id: string,
    name: string,
    mime: string,
    size: int,
    data: string,
    createdAt: int)

  datatype Comment = Comment(
    id: string,
    userId: string,
    username: string,
    content: string,
    quotedText: Option<string>,
    createdAt: int)

  datatype Collaborator = Collaborator(
    userId: string,
    username: string,
    avatarColor: string,
    permission: Permission)

  /** A share configuration object as it exists at run time. The declared
      `ShareConfig` has `isPublic`, `publicPermission`, an optional `url` and
      `collaborators`; the store also creates objects holding only
      `isShared` and `permission`, so every field may be absent. */
  datatype ShareObj = ShareObj(
    isPublic: Option<bool>,
    publicPermission: Option<Permission>,
    url: Option<string>,
    collaborators: Option<seq<Collaborator>>,
    isShared: Option<bool>,
    permission: Option<Permission>)
  {
    /** The object has the declared `ShareConfig` shape. */
    predicate WellFormed()
    {
      isPublic.Some? && publicPermission.Some? && collaborators.Some?
      && isShared.None? && permission.None?
    }

    /** JavaScript truthiness of `isPublic` (absent reads as false). */
    predicate Public()
    {
      isPublic == Some(true)
    }

    /** JavaScript truthiness of `url`: present and not the empty string. */
    predicate HasUrl()
    {
      url.Some? && url.value != ""
    }
  }

  /** `{ isPublic: false, publicPermission: 'read', collaborators: [] }`. */
  const DefaultShare: ShareObj := ShareObj(Some(false), Some(Read), None, Some([]), None, None)

  /** `{ isShared, permission }`: the object the store builds for new notes. */
  function LegacyShare(isShared: bool, permission: Permission): (s: ShareObj)
    ensures !s.WellFormed() && s.collaborators.None? && !s.Public() && !s.HasUrl()
  {
    ShareObj(None, None, None, None, Some(isShared), Some(permission))
  }

  datatype Note = Note(
    id: string,
    title: string,
    content: string,
    folderId: string,
    familyId: Option<string>,
    attachments: Option<seq<Attachment>>,
    comments: Option<seq<Comment>>,
    shareConfig: Option<ShareObj>,
    createdAt: int,
    updatedAt: int)

  datatype User = User(
    id: string,
    username: string,
    token: string,
    avatarColor: Option<string>,
    familyId: Option<string>)
}
