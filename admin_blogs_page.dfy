/**
 * The blog app's moderation page as state: the listed posts, the selected
 * post, the typed rejection reason and the three confirmation dialogs,
 * together with the requests the page has sent. Each server answer is a
 * parameter: `ok` says whether the request succeeded, and `refreshed` is
 * what reloading the listing returned (`None` when the reload failed).
 */
module AdminBlogsPage {
  import opened Wrappers
  import opened Strings
  import opened Claims
  import opened Entities
  import AdminBlogsRoute

  /**
   * `user && (user['role'] === 'ADMIN' || user[ROLES]?.includes('ADMIN'))`.
   * The claim is typed as an array, but a string claim gets a substring test.
   */
  predicate ClientIsAdmin(user: Option<Identity>) {
    && user.Some?
    && (|| user.value.role == Some("ADMIN")
        || match user.value.roles
           case NoRoles => false
           case RolesStr(s) => Contains(s, "ADMIN")
           case RolesArr(items) => "ADMIN" in items)
  }

  /** The page admits exactly the callers its listing endpoint admits. */
  lemma ClientMatchesServerGate(u: Identity)
    ensures ClientIsAdmin(Some(u)) == AdminBlogsRoute.IsAdminHere(u)
  {
  }

  /** A request the page sends. */
  datatype Request =
    | StatusUpdate(blogId: string, status: string, rejectionReason: Option<string>)
    | DeleteOne(blogId: string)
    | DeleteAll

  /** The `PATCH` body: the new status, with the reason only when it is non-empty. */
  function StatusRequest(blogId: string, action: Status, reason: string): (r: Request)
    ensures r.StatusUpdate? && r.blogId == blogId && r.status == StatusName(action)
    ensures r.rejectionReason.Some? <==> reason != ""
    ensures r.rejectionReason.Some? ==> r.rejectionReason.value == reason
  {
    StatusUpdate(blogId, StatusName(action), if reason != "" then Some(reason) else None)
  }

  /** What `getStatusDetails` shows about a post. */
  datatype StatusDetails = StatusDetails(labelText: string, className: string, date: Option<int>, reason: Option<string>)

  /**
   * `getStatusDetails(blog)`: an approved post shows its publication date
   * when it has one, a rejected post carries its reason, and anything else
   * shows as pending.
   */
  function GetStatusDetails(b: Blog): (r: StatusDetails)
    ensures r.labelText == (match b.status case APPROVED => "Approved" case REJECTED => "Rejected" case PENDING => "Pending")
    ensures r.date.Some? <==> b.status == APPROVED && b.publishedAt.Some?
    ensures r.date.Some? ==> r.date == b.publishedAt
    ensures b.status == REJECTED ==> r.reason == b.rejectionReason
    ensures b.status != REJECTED ==> r.reason.None?
  {
    match b.status
    case APPROVED => StatusDetails("Approved", "bg-green-100 text-green-800", b.publishedAt, None)
    case REJECTED => StatusDetails("Rejected", "bg-red-100 text-red-800", None, b.rejectionReason)
    case _ => StatusDetails("Pending", "bg-yellow-100 text-yellow-800", None, None)
  }

  /** The approve and reject buttons are shown for pending posts only: exactly the rows whose badge reads 'Pending'. */
  predicate ActionsOffered(b: Blog): (r: bool)
    ensures r <==> GetStatusDetails(b).labelText == "Pending"
  {
    b.status == PENDING
  }

  class ModerationPage {
    const user: Option<Identity>
    var blogs: seq<Blog>
    var selectedBlogId: Option<string>
    var rejectionReason: string
    var showRejectionModal: bool
    var showDeleteConfirmModal: bool
    var showDeleteAllConfirmModal: bool
    /** The requests sent so far, oldest first. */
    var sent: seq<Request>

    constructor(user0: Option<Identity>)
      ensures user == user0 && blogs == [] && selectedBlogId.None? && rejectionReason == ""
      ensures !showRejectionModal && !showDeleteConfirmModal && !showDeleteAllConfirmModal && sent == []
    {
      user := user0;
      blogs, selectedBlogId, rejectionReason := [], None, "";
      showRejectionModal, showDeleteConfirmModal, showDeleteAllConfirmModal := false, false, false;
      sent := [];
    }

    /** `fetchBlogs` after a change: the listing is replaced when the reload succeeds. */
    method Reload(refreshed: Option<seq<Blog>>)
      modifies this
      ensures blogs == if refreshed.Some? then refreshed.value else old(blogs)
      ensures selectedBlogId == old(selectedBlogId) && rejectionReason == old(rejectionReason)
      ensures showRejectionModal == old(showRejectionModal)
      ensures showDeleteConfirmModal == old(showDeleteConfirmModal)
      ensures showDeleteAllConfirmModal == old(showDeleteAllConfirmModal) && sent == old(sent)
    {
      if refreshed.Some? {
        blogs := refreshed.value;
      }
    }

    /**
     * `handleAction(blogId, action, reason)`: a non-admin sends nothing;
     * otherwise the status change is sent, and after a successful rejection
     * the dialog closes and its reason and selection are cleared.
     */
    method HandleAction(blogId: string, action: Status, reason: string, ok: bool, refreshed: Option<seq<Blog>>)
      requires action == APPROVED || action == REJECTED
      modifies this
      ensures !ClientIsAdmin(user) ==>
                && sent == old(sent) && blogs == old(blogs) && selectedBlogId == old(selectedBlogId)
                && rejectionReason == old(rejectionReason) && showRejectionModal == old(showRejectionModal)
      ensures ClientIsAdmin(user) ==> sent == old(sent) + [StatusRequest(blogId, action, reason)]
      ensures ClientIsAdmin(user) && ok ==> blogs == if refreshed.Some? then refreshed.value else old(blogs)
      ensures ClientIsAdmin(user) && !ok ==> blogs == old(blogs)
      ensures ClientIsAdmin(user) && ok && action == REJECTED ==>
                !showRejectionModal && rejectionReason == "" && selectedBlogId.None?
      ensures !(ClientIsAdmin(user) && ok && action == REJECTED) ==>
                showRejectionModal == old(showRejectionModal) && rejectionReason == old(rejectionReason)
                && selectedBlogId == old(selectedBlogId)
      ensures showDeleteConfirmModal == old(showDeleteConfirmModal)
      ensures showDeleteAllConfirmModal == old(showDeleteAllConfirmModal)
    {
      if !ClientIsAdmin(user) {
        return;
      }
      sent := sent + [StatusRequest(blogId, action, reason)];
      if !ok {
        return;
      }
      Reload(refreshed);
      if action == REJECTED {
        showRejectionModal := false;
        rejectionReason := "";
        selectedBlogId := None;
      }
    }

    /**
     * `handleRejectionSubmit`: only with a selected post and a reason that
     * is not blank after trimming; the reason sent is the trimmed text.
     */
    method HandleRejectionSubmit(ok: bool, refreshed: Option<seq<Blog>>)
      modifies this
      ensures old(selectedBlogId).None? || old(selectedBlogId).value == "" || Trim(old(rejectionReason)) == "" ==>
                sent == old(sent) && blogs == old(blogs) && selectedBlogId == old(selectedBlogId)
                && rejectionReason == old(rejectionReason) && showRejectionModal == old(showRejectionModal)
      ensures |sent| > |old(sent)| ==>
                && old(selectedBlogId).Some?
                && sent == old(sent) + [StatusRequest(old(selectedBlogId).value, REJECTED, Trim(old(rejectionReason)))]
                && sent[|sent| - 1].rejectionReason.Some?
                && var r := sent[|sent| - 1].rejectionReason.value;
                   !IsJsSpace(r[0]) && !IsJsSpace(r[|r| - 1])
      ensures |sent| == |old(sent)| || |sent| == |old(sent)| + 1
      ensures old(selectedBlogId).Some? && old(selectedBlogId).value != "" && Trim(old(rejectionReason)) != "" ==>
                sent == if ClientIsAdmin(user)
                        then old(sent) + [StatusRequest(old(selectedBlogId).value, REJECTED, Trim(old(rejectionReason)))]
                        else old(sent)
      ensures |sent| > |old(sent)| && ok ==>
                && blogs == (if refreshed.Some? then refreshed.value else old(blogs))
                && !showRejectionModal && rejectionReason == "" && selectedBlogId.None?
      ensures !(|sent| > |old(sent)| && ok) ==>
                && blogs == old(blogs) && showRejectionModal == old(showRejectionModal)
                && rejectionReason == old(rejectionReason) && selectedBlogId == old(selectedBlogId)
      ensures showDeleteConfirmModal == old(showDeleteConfirmModal)
      ensures showDeleteAllConfirmModal == old(showDeleteAllConfirmModal)
    {
      if selectedBlogId.None? || selectedBlogId.value == "" || Trim(rejectionReason) == "" {
        return;
      }
      var reason := Trim(rejectionReason);
      TrimSpec(rejectionReason);
      HandleAction(selectedBlogId.value, REJECTED, reason, ok, refreshed);
    }

    /** `handleReject(blogId)`: an admin selects the post and opens the reason dialog. */
    method HandleReject(blogId: string)
      modifies this
      ensures !ClientIsAdmin(user) ==> selectedBlogId == old(selectedBlogId) && showRejectionModal == old(showRejectionModal)
      ensures ClientIsAdmin(user) ==> selectedBlogId == Some(blogId) && showRejectionModal
      ensures blogs == old(blogs) && sent == old(sent) && rejectionReason == old(rejectionReason)
      ensures showDeleteConfirmModal == old(showDeleteConfirmModal)
      ensures showDeleteAllConfirmModal == old(showDeleteAllConfirmModal)
    {
      if !ClientIsAdmin(user) {
        return;
      }
      selectedBlogId := Some(blogId);
      showRejectionModal := true;
    }

    /** `handleApprove(blogId)`: as `handleAction` with APPROVED and no reason. */
    method HandleApprove(blogId: string, ok: bool, refreshed: Option<seq<Blog>>)
      modifies this
      ensures !ClientIsAdmin(user) ==> sent == old(sent) && blogs == old(blogs)
      ensures ClientIsAdmin(user) ==> sent == old(sent) + [StatusUpdate(blogId, "APPROVED", None)]
      ensures ClientIsAdmin(user) && ok ==> blogs == if refreshed.Some? then refreshed.value else old(blogs)
      ensures !ok ==> blogs == old(blogs)
      ensures selectedBlogId == old(selectedBlogId) && rejectionReason == old(rejectionReason)
      ensures showRejectionModal == old(showRejectionModal)
      ensures showDeleteConfirmModal == old(showDeleteConfirmModal)
      ensures showDeleteAllConfirmModal == old(showDeleteAllConfirmModal)
    {
      if !ClientIsAdmin(user) {
        return;
      }
      sent := sent + [StatusUpdate(blogId, "APPROVED", None)];
      if ok {
        Reload(refreshed);
      }
    }

    /**
     * `handleDeleteBlog(blogId)` (no admin check on the page): after a
     * successful delete the listing drops the rows with that id, keeping
     * the order of the others, and the dialog closes.
     */
    method HandleDeleteBlog(blogId: string, ok: bool)
      modifies this
      ensures sent == old(sent) + [DeleteOne(blogId)]
      ensures ok ==> blogs == RemoveById(old(blogs), blogId) && !showDeleteConfirmModal && selectedBlogId.None?
      ensures !ok ==> blogs == old(blogs) && showDeleteConfirmModal == old(showDeleteConfirmModal)
                      && selectedBlogId == old(selectedBlogId)
      ensures rejectionReason == old(rejectionReason) && showRejectionModal == old(showRejectionModal)
      ensures showDeleteAllConfirmModal == old(showDeleteAllConfirmModal)
    {
      sent := sent + [DeleteOne(blogId)];
      if ok {
        blogs := RemoveById(blogs, blogId);
        showDeleteConfirmModal := false;
        selectedBlogId := None;
      }
    }

    /** `handleDeleteAllBlogs`: after a successful delete the listing is empty. */
    method HandleDeleteAllBlogs(ok: bool)
      modifies this
      ensures sent == old(sent) + [DeleteAll]
      ensures ok ==> blogs == [] && !showDeleteAllConfirmModal
      ensures !ok ==> blogs == old(blogs) && showDeleteAllConfirmModal == old(showDeleteAllConfirmModal)
      ensures selectedBlogId == old(selectedBlogId) && rejectionReason == old(rejectionReason)
      ensures showRejectionModal == old(showRejectionModal) && showDeleteConfirmModal == old(showDeleteConfirmModal)
    {
      sent := sent + [DeleteAll];
      if ok {
        blogs := [];
        showDeleteAllConfirmModal := false;
      }
    }
  }
}
