/** Which text of a discussion a viewer gets. */
module Display {
  import opened Ids
  import opened Store

  const ADMIN_USERNAME := "admin"

  datatype Viewer = Viewer(id: UserID, username: string, isAdmin: bool)

  datatype DiscussionDisplay = DiscussionDisplay(
    full: Discussion,
    titleDisplay: string,
    descriptionRaw: string,
    isUser: bool,
    mayEdit: bool,
    isAdmin: bool,
    interest: int)

  /** Neither an administrator nor the owner. */
  predicate Outsider(row: Discussion, cur: Option<Viewer>) {
    cur == None || (!cur.value.isAdmin && cur.value.id != row.owner)
  }

  predicate MayEditDiscussion(v: Viewer, row: Discussion) {
    v.isAdmin || v.id == row.owner
  }

  /** Insiders, and everyone for a public discussion, get the current text; others the approved one or nothing. */
  ghost predicate Shows(row: Discussion, cur: Option<Viewer>, r: Option<DiscussionDisplay>) {
    if row.isPublic || !Outsider(row, cur) then
      r.Some? && r.value.full == row && r.value.titleDisplay == row.title && r.value.descriptionRaw == row.description
    else if row.approvedTitle == "" then
      r == None
    else
      && r.Some? && r.value.full == row.(title := row.approvedTitle)
      && r.value.titleDisplay == "" && r.value.descriptionRaw == row.approvedDescription
  }

  function StoredInterest(t: Tables, u: UserID, id: DiscussionID): int {
    if (u, id) in t.interest then t.interest[(u, id)] else 0
  }

  method DiscussionGetDisplay(t: Tables, id: DiscussionID, row: Discussion, cur: Option<Viewer>)
    returns (r: Option<DiscussionDisplay>)
    ensures Shows(row, cur, r)
    // Administrators and the owner, and everyone for a public discussion, see the current text.
    ensures row.isPublic || (cur.Some? && (cur.value.isAdmin || cur.value.id == row.owner)) ==>
      r.Some? && r.value.full == row && r.value.titleDisplay == row.title && r.value.descriptionRaw == row.description
    // All others see what is approved, or nothing.
    ensures !row.isPublic && (cur == None || (!cur.value.isAdmin && cur.value.id != row.owner)) ==>
      && (r == None <==> row.approvedTitle == "")
      && (r.Some? ==> r.value.full.title == row.approvedTitle && r.value.descriptionRaw == row.approvedDescription)
    ensures r.Some? ==> (r.value.mayEdit <==> cur.Some? && (cur.value.isAdmin || cur.value.id == row.owner))
    ensures r.Some? ==> (r.value.mayEdit <==> !Outsider(row, cur))
    ensures r.Some? ==> (r.value.isAdmin <==> cur.Some? && cur.value.isAdmin)
    ensures r.Some? ==> (r.value.isUser <==> cur.Some? && cur.value.username != ADMIN_USERNAME)
    ensures r.Some? ==> r.value.interest == if r.value.isUser then StoredInterest(t, cur.value.id, id) else 0
  {
    var showMain := true;
    if !row.isPublic && (cur == None || (!cur.value.isAdmin && cur.value.id != row.owner)) {
      if row.approvedTitle == "" {
        return None;
      } else {
        showMain := false;
      }
    }
    var dd := DiscussionDisplay(row, "", "", false, false, false, 0);
    if showMain {
      dd := dd.(titleDisplay := row.title, descriptionRaw := row.description);
    } else {
      dd := dd.(full := dd.full.(title := row.approvedTitle), descriptionRaw := row.approvedDescription);
    }
    if cur.Some? {
      if cur.value.username != ADMIN_USERNAME {
        dd := dd.(isUser := true, interest := StoredInterest(t, cur.value.id, id));
      }
      dd := dd.(mayEdit := MayEditDiscussion(cur.value, row));
      if cur.value.isAdmin {
        dd := dd.(isAdmin := true);
      }
    }
    return Some(dd);
  }
}
