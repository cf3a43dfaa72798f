/** The note editor's working copy (components/Editor.tsx): the draft
    fields that each handler replaces, and the note each handler hands to
    the store's `onUpdate` callback (a "commit"). The open note (`note`
    prop), the signed-in user, the clock and `Math.random` are parameters. */
module EditorDraft {
  import opened Common
  import opened ClientTypes
  import Workspace

  const PublicUrlBase: string := "https://gonote.app/s/"

  /** The avatar colours `handleInvite` picks from with `Math.random()`. */
  const AvatarPalette: seq<string> := ["bg-red-500", "bg-blue-500", "bg-green-500", "bg-yellow-500"]

  /** A textarea selection; the browser keeps `start <= end <= value.length`. */
  datatype Selection = Selection(start: nat, end: nat)
  {
    predicate Within(text: string) { start <= end <= |text| }
  }

  /** The choices of a collaborator's permission menu. */
  datatype PermissionChoice = SetTo(permission: Permission) | Remove

  /** What the file input hands to `handleFileUpload`. */
  datatype FileInfo = FileInfo(name: string, mime: string, size: int)

  /** The body `insertText(before, after)` builds around the selection. */
  function Splice(text: string, sel: Selection, before: string, after: string): (r: string)
    requires sel.Within(text)
    ensures |r| == |text| + |before| + |after|
    ensures r[..sel.start] == text[..sel.start]
    ensures r[sel.start..sel.start + |before|] == before
    ensures r[sel.start + |before|..sel.end + |before|] == text[sel.start..sel.end]
    ensures r[sel.end + |before|..sel.end + |before| + |after|] == after
    ensures r[sel.end + |before| + |after|..] == text[sel.end..]
  {
    var r := text[..sel.start] + before + text[sel.start..sel.end] + after + text[sel.end..];
    assert r[sel.start..sel.start + |before|] == before;
    r
  }

  /** The share object after `togglePublicShare`; `token` stands for the
      random part of a new link. */
  function Toggled(s: ShareObj, token: string): (r: ShareObj)
    ensures r.Public() <==> !s.Public()
    ensures r.isPublic.Some?
    ensures r.Public() ==> r.HasUrl()
    ensures s.HasUrl() ==> r.url == s.url
    ensures !r.Public() ==> r.url == s.url
    ensures r.Public() && !s.HasUrl() ==> r.url == Some(PublicUrlBase + token)
    ensures r.publicPermission == s.publicPermission && r.collaborators == s.collaborators
    ensures r.isShared == s.isShared && r.permission == s.permission
    ensures s.WellFormed() ==> r.WellFormed()
  {
    var flipped := s.(isPublic := Some(!s.Public()));
    if flipped.Public() && !flipped.HasUrl() then flipped.(url := Some(PublicUrlBase + token))
    else flipped
  }

  /** Switching public sharing on, off and on again shows the link of the
      first switch-on: a link once made is never replaced. */
  lemma OnOffOnKeepsUrl(s: ShareObj, t1: string, t2: string, t3: string)
    requires !s.Public()
    ensures Toggled(s, t1).Public() && !Toggled(Toggled(s, t1), t2).Public()
    ensures Toggled(Toggled(Toggled(s, t1), t2), t3).Public()
    ensures Toggled(Toggled(Toggled(s, t1), t2), t3).url == Toggled(s, t1).url
  {
  }

  /** The collaborator record `handleInvite` builds. */
  function NewCollaborator(username: string, id: string, colorIndex: nat): (c: Collaborator)
    requires colorIndex < |AvatarPalette|
    ensures c.username == username && c.userId == id && c.permission == Read
    ensures c.avatarColor in AvatarPalette
  {
    Collaborator(id, username, AvatarPalette[colorIndex], Read)
  }

  /** `{ ...shareConfig, collaborators: [...shareConfig.collaborators, c] }`;
      None when `collaborators` is absent and spreading it throws. */
  function Invited(s: ShareObj, c: Collaborator): (r: Option<ShareObj>)
    ensures r.None? <==> s.collaborators.None?
    ensures r.Some? ==> (r.value.collaborators.Some?
       && |r.value.collaborators.value| == |s.collaborators.value| + 1
       && r.value.collaborators.value[..|s.collaborators.value|] == s.collaborators.value
       && r.value.collaborators.value[|s.collaborators.value|] == c)
    ensures r.Some? ==> (r.value.isPublic == s.isPublic && r.value.url == s.url
       && r.value.publicPermission == s.publicPermission
       && r.value.isShared == s.isShared && r.value.permission == s.permission)
  {
    match s.collaborators
    case None => None
    case Some(cs) => Some(s.(collaborators := Some(cs + [c])))
  }

  predicate OtherUser(userId: string, c: Collaborator) { c.userId != userId }

  function Regranted(cs: seq<Collaborator>, userId: string, p: Permission): (r: seq<Collaborator>)
    ensures |r| == |cs|
    ensures forall i :: 0 <= i < |cs| && cs[i].userId == userId ==> r[i] == cs[i].(permission := p)
    ensures forall i :: 0 <= i < |cs| && cs[i].userId != userId ==> r[i] == cs[i]
  {
    seq(|cs|, i requires 0 <= i < |cs| => if cs[i].userId == userId then cs[i].(permission := p) else cs[i])
  }

  /** The permission menu's `onChange`: 'remove' filters out every entry with
      the user id, any other choice sets the permission on those entries.
      None when `collaborators` is absent and the handler throws. */
  function WithPermission(s: ShareObj, userId: string, choice: PermissionChoice): (r: Option<ShareObj>)
    ensures r.None? <==> s.collaborators.None?
    ensures r.Some? ==> r.value.collaborators.Some?
    ensures r.Some? ==> (r.value.isPublic == s.isPublic && r.value.url == s.url
       && r.value.publicPermission == s.publicPermission
       && r.value.isShared == s.isShared && r.value.permission == s.permission)
    ensures r.Some? && choice.Remove? ==>
      (forall c :: c in r.value.collaborators.value <==> c in s.collaborators.value && c.userId != userId)
      && (forall c :: multiset(r.value.collaborators.value)[c] ==
                       if c.userId != userId then multiset(s.collaborators.value)[c] else 0)
      && IsSubsequence(r.value.collaborators.value, s.collaborators.value)
    ensures r.Some? && choice.SetTo? ==>
      var before, after := s.collaborators.value, r.value.collaborators.value;
      |after| == |before|
      && (forall i :: 0 <= i < |before| && before[i].userId == userId ==>
            after[i] == before[i].(permission := choice.permission))
      && (forall i :: 0 <= i < |before| && before[i].userId != userId ==> after[i] == before[i])
  {
    match s.collaborators
    case None => None
    case Some(cs) =>
      match choice
      case Remove =>
        FilterKeepsOrder(cs, c => OtherUser(userId, c));
        FilterCounts(cs, c => OtherUser(userId, c));
        Some(s.(collaborators := Some(Filter(cs, c => OtherUser(userId, c)))))
      case SetTo(p) => Some(s.(collaborators := Some(Regranted(cs, userId, p))))
  }

  /** The link invariant: a public note always has a link. Toggling
      establishes it and the collaborator edits keep it. */
  predicate LinkInvariant(s: ShareObj)
  {
    s.Public() ==> s.HasUrl()
  }

  lemma CollaboratorEditsKeepLinkInvariant(s: ShareObj, c: Collaborator, userId: string, choice: PermissionChoice)
    requires LinkInvariant(s)
    ensures Invited(s, c).Some? ==> LinkInvariant(Invited(s, c).value)
    ensures WithPermission(s, userId, choice).Some? ==> LinkInvariant(WithPermission(s, userId, choice).value)
  {
  }

  predicate OtherAttachment(id: string, a: Attachment) { a.id != id }

  /** `attachments.filter(a => a.id !== id)`. */
  function WithoutAttachment(atts: seq<Attachment>, id: string): (r: seq<Attachment>)
    ensures forall a :: a in r <==> a in atts && a.id != id
    ensures forall a :: multiset(r)[a] == if a.id != id then multiset(atts)[a] else 0
    ensures IsSubsequence(r, atts)
  {
    FilterKeepsOrder(atts, a => OtherAttachment(id, a));
    FilterCounts(atts, a => OtherAttachment(id, a));
    Filter(atts, a => OtherAttachment(id, a))
  }

  /** The share object the draft starts from: the note's own object whatever
      its shape, or the default when there is none. */
  function DraftShare(note: Option<Note>): (r: ShareObj)
    ensures note.Some? && note.value.shareConfig.Some? ==> r == note.value.shareConfig.value
    ensures note.None? || note.value.shareConfig.None? ==> r == DefaultShare && r.WellFormed()
  {
    match note
    case None => DefaultShare
    case Some(n) => n.shareConfig.GetOr(DefaultShare)
  }

  /** A note fresh from the store's create handler carries a share object
      without `collaborators`. Rendering the editor reads that list's
      length, and inviting or changing a permission on it throws: none of
      these ever completes. */
  lemma {:induction false} CreatedNoteCannotShare(id: string, folderId: string, now: int, c: Collaborator,
                                                  userId: string, choice: PermissionChoice)
    ensures DraftShare(Some(Workspace.NewNote(id, folderId, now))).collaborators.None?
    ensures !DraftShare(Some(Workspace.NewNote(id, folderId, now))).WellFormed()
    ensures Invited(DraftShare(Some(Workspace.NewNote(id, folderId, now))), c).None?
    ensures WithPermission(DraftShare(Some(Workspace.NewNote(id, folderId, now))), userId, choice).None?
  {
    var s := DraftShare(Some(Workspace.NewNote(id, folderId, now)));
    assert s == LegacyShare(false, Read);
  }

  /** The note `handleSave` commits: the stored note with every draft field,
      the body (or its override) and a new `updatedAt`. */
  function Saved(note: Note, title: string, content: string, atts: seq<Attachment>, comments: seq<Comment>,
                 share: ShareObj, now: int): (r: Note)
    ensures r.id == note.id && r.folderId == note.folderId && r.familyId == note.familyId
    ensures r.createdAt == note.createdAt && r.updatedAt == now
    ensures r.title == title && r.content == content && r.attachments == Some(atts)
    ensures r.comments == Some(comments) && r.shareConfig == Some(share)
  {
    note.(title := title, content := content, attachments := Some(atts), comments := Some(comments),
          shareConfig := Some(share), updatedAt := now)
  }

  class Editor {
    var content: string
    var title: string
    var attachments: seq<Attachment>
    var comments: seq<Comment>
    var shareConfig: ShareObj
    var newComment: string
    var activeQuote: string

    /** The `useState` initial values. */
    constructor()
      ensures content == "" && title == "" && attachments == [] && comments == []
      ensures shareConfig == DefaultShare && newComment == "" && activeQuote == ""
    {
      content, title := "", "";
      attachments, comments := [], [];
      shareConfig := DefaultShare;
      newComment, activeQuote := "", "";
    }

    /** The effect that reloads the draft whenever the open note changes;
        it leaves the comment box and the quote alone. */
    method Load(note: Option<Note>)
      modifies this`content, this`title, this`attachments, this`comments, this`shareConfig
      ensures note.Some? ==> (content == note.value.content && title == note.value.title
         && attachments == note.value.attachments.GetOr([]) && comments == note.value.comments.GetOr([]))
      ensures note.None? ==> content == "" && title == "" && attachments == [] && comments == []
      ensures shareConfig == DraftShare(note)
    {
      match note
      case Some(n) =>
        content := n.content;
        title := n.title;
        attachments := n.attachments.GetOr([]);
        comments := n.comments.GetOr([]);
        shareConfig := n.shareConfig.GetOr(DefaultShare);
      case None =>
        content := "";
        title := "";
        attachments := [];
        comments := [];
        shareConfig := DefaultShare;
    }

    /** Typing in the title field changes the draft only. */
    method EditTitle(text: string)
      modifies this`title
      ensures title == text
    {
      title := text;
    }

    /** Typing in the body changes the draft only. */
    method EditContent(text: string)
      modifies this`content
      ensures content == text
    {
      content := text;
    }

    /** Typing in the comment box. */
    method EditNewComment(text: string)
      modifies this`newComment
      ensures newComment == text
    {
      newComment := text;
    }

    /** `insertText(before, after)`: wraps the selection and returns the
        range the cursor is restored to; nothing happens without a
        mounted textarea. */
    method InsertText(textarea: Option<Selection>, before: string, after: string) returns (restored: Option<Selection>)
      requires textarea.Some? ==> textarea.value.Within(content)
      modifies this`content
      ensures textarea.None? ==> content == old(content) && restored.None?
      ensures textarea.Some? ==> content == Splice(old(content), textarea.value, before, after)
      ensures textarea.Some? ==>
        restored == Some(Selection(textarea.value.start + |before|, textarea.value.end + |before|))
      ensures restored.Some? ==> (restored.value.Within(content)
         && content[restored.value.start..restored.value.end] == old(content)[textarea.value.start..textarea.value.end])
    {
      match textarea
      case None =>
        restored := None;
      case Some(sel) =>
        content := Splice(content, sel, before, after);
        restored := Some(Selection(sel.start + |before|, sel.end + |before|));
    }

    /** `insertMention(username)`. */
    method InsertMention(textarea: Option<Selection>, username: string) returns (restored: Option<Selection>)
      requires textarea.Some? ==> textarea.value.Within(content)
      modifies this`content
      ensures textarea.None? ==> content == old(content) && restored.None?
      ensures textarea.Some? ==> content == Splice(old(content), textarea.value, "@" + username + " ", "")
    {
      restored := InsertText(textarea, "@" + username + " ", "");
    }

    /** `applyColor(color)`: wraps the selection in a coloured span. */
    method ApplyColor(textarea: Option<Selection>, color: string) returns (restored: Option<Selection>)
      requires textarea.Some? ==> textarea.value.Within(content)
      modifies this`content
      ensures textarea.None? ==> content == old(content)
      ensures textarea.Some? ==>
        content == Splice(old(content), textarea.value, "<span style=\"color: " + color + "\">", "</span>")
    {
      restored := InsertText(textarea, "<span style=\"color: " + color + "\">", "</span>");
    }

    /** The context menu's "Highlight" entry. */
    method Highlight(textarea: Option<Selection>) returns (restored: Option<Selection>)
      requires textarea.Some? ==> textarea.value.Within(content)
      modifies this`content
      ensures textarea.None? ==> content == old(content)
      ensures textarea.Some? ==>
        content == Splice(old(content), textarea.value, "<span style=\"background:#FDECC8\">", "</span>")
    {
      restored := InsertText(textarea, "<span style=\"background:#FDECC8\">", "</span>");
    }

    /** `handleContextMenu`: the selected text becomes the quote a new
        comment will carry. */
    method CaptureQuote(textarea: Option<Selection>)
      requires textarea.Some? ==> textarea.value.Within(content)
      modifies this`activeQuote
      ensures textarea.None? ==> activeQuote == old(activeQuote)
      ensures textarea.Some? ==> activeQuote == content[textarea.value.start..textarea.value.end]
    {
      if textarea.Some? {
        activeQuote := content[textarea.value.start..textarea.value.end];
      }
    }

    /** `submitComment`: a blank comment box changes nothing; otherwise one
        comment is appended with the author fields of the signed-in user
        and the captured quote, the box and the quote are cleared, and the
        stored note receives the new comment list and nothing else. */
    method SubmitComment(note: Option<Note>, user: User, id: string, now: int) returns (commit: Option<Note>)
      modifies this`comments, this`newComment, this`activeQuote
      ensures IsBlank(old(newComment)) ==>
        comments == old(comments) && newComment == old(newComment) && activeQuote == old(activeQuote)
        && commit.None?
      ensures !IsBlank(old(newComment)) ==>
        comments == old(comments) + [Comment(id, user.id, user.username, old(newComment), Some(old(activeQuote)), now)]
        && newComment == "" && activeQuote == ""
        && commit == (if note.Some? then Some(note.value.(comments := Some(comments))) else None)
    {
      if IsBlank(newComment) {
        return None;
      }
      var comment := Comment(id, user.id, user.username, newComment, Some(activeQuote), now);
      var updated := comments + [comment];
      comments := updated;
      newComment := "";
      activeQuote := "";
      commit := if note.Some? then Some(note.value.(comments := Some(updated))) else None;
    }

    /** `togglePublicShare`, committed to the store at once. */
    method TogglePublicShare(note: Option<Note>, token: string) returns (commit: Option<Note>)
      modifies this`shareConfig
      ensures shareConfig == Toggled(old(shareConfig), token)
      ensures commit == (if note.Some? then Some(note.value.(shareConfig := Some(shareConfig))) else None)
    {
      var config := Toggled(shareConfig, token);
      shareConfig := config;
      commit := if note.Some? then Some(note.value.(shareConfig := Some(config))) else None;
    }

    /** The invite box's Enter key: an empty box invites nobody, otherwise
        `handleInvite` appends one collaborator with read permission (no
        duplicate check). `threw` reports the TypeError raised when the
        share object has no `collaborators`. */
    method InviteFromInput(note: Option<Note>, input: string, id: string, colorIndex: nat)
      returns (commit: Option<Note>, threw: bool)
      requires colorIndex < |AvatarPalette|
      modifies this`shareConfig
      ensures input == "" ==> shareConfig == old(shareConfig) && commit.None? && !threw
      ensures input != "" ==> threw == old(shareConfig).collaborators.None?
      ensures threw ==> shareConfig == old(shareConfig) && commit.None?
      ensures input != "" && !threw ==>
        shareConfig == Invited(old(shareConfig), NewCollaborator(input, id, colorIndex)).value
        && commit == (if note.Some? then Some(note.value.(shareConfig := Some(shareConfig))) else None)
    {
      commit, threw := None, false;
      if input == "" {
        return;
      }
      var invited := Invited(shareConfig, NewCollaborator(input, id, colorIndex));
      match invited
      case None =>
        threw := true;
      case Some(config) =>
        shareConfig := config;
        commit := if note.Some? then Some(note.value.(shareConfig := Some(config))) else None;
    }

    /** A collaborator's permission menu, committed to the store at once. */
    method ChoosePermission(note: Option<Note>, userId: string, choice: PermissionChoice)
      returns (commit: Option<Note>, threw: bool)
      modifies this`shareConfig
      ensures threw == old(shareConfig).collaborators.None?
      ensures threw ==> shareConfig == old(shareConfig) && commit.None?
      ensures !threw ==> (shareConfig == WithPermission(old(shareConfig), userId, choice).value
         && commit == (if note.Some? then Some(note.value.(shareConfig := Some(shareConfig))) else None))
    {
      commit, threw := None, false;
      match WithPermission(shareConfig, userId, choice)
      case None =>
        threw := true;
      case Some(config) =>
        shareConfig := config;
        commit := if note.Some? then Some(note.value.(shareConfig := Some(config))) else None;
    }

    /** `handleFileUpload`: with a file chosen, one attachment record is
        appended and the stored note receives the new list and nothing else. */
    method UploadFile(note: Option<Note>, file: Option<FileInfo>, id: string, objectUrl: string, now: int)
      returns (commit: Option<Note>)
      modifies this`attachments
      ensures file.None? ==> attachments == old(attachments) && commit.None?
      ensures file.Some? ==>
        attachments == old(attachments) + [Attachment(id, file.value.name, file.value.mime, file.value.size, objectUrl, now)]
        && commit == (if note.Some? then Some(note.value.(attachments := Some(attachments))) else None)
    {
      commit := None;
      if file.Some? {
        var added := Attachment(id, file.value.name, file.value.mime, file.value.size, objectUrl, now);
        var updated := attachments + [added];
        attachments := updated;
        commit := if note.Some? then Some(note.value.(attachments := Some(updated))) else None;
      }
    }

    /** The attachment card's delete button. */
    method RemoveAttachment(note: Option<Note>, attachmentId: string) returns (commit: Option<Note>)
      modifies this`attachments
      ensures attachments == WithoutAttachment(old(attachments), attachmentId)
      ensures commit == (if note.Some? then Some(note.value.(attachments := Some(attachments))) else None)
    {
      var updated := WithoutAttachment(attachments, attachmentId);
      attachments := updated;
      commit := if note.Some? then Some(note.value.(attachments := Some(updated))) else None;
    }

    /** `handleSave`, run when the title or the body loses focus. */
    method Save(note: Option<Note>, overrideContent: Option<string>, now: int) returns (commit: Option<Note>)
      ensures note.None? ==> commit.None?
      ensures note.Some? ==>
        commit == Some(Saved(note.value, title, overrideContent.GetOr(content), attachments, comments, shareConfig, now))
    {
      if note.None? {
        return None;
      }
      commit := Some(Saved(note.value, title, overrideContent.GetOr(content), attachments, comments, shareConfig, now));
    }
  }
}
