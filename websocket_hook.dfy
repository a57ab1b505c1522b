/** The notification handler of the front end's WebSocket hook
    (frontend/src/hooks/useWebSockets.ts): each text frame is matched against
    the known notifications in order and triggers at most one of the hook's
    callbacks. The callback that fires is the result; `None` means none
    does. */
module WebSocketHook {
  import opened Wrappers
  import opened Text
  import opened JsText
  import TaskService

  /** A call of one of the four callbacks, with its arguments. A number that
      `parseInt` could not read is `None` (JavaScript's `NaN`); a missing
      field is `None` (`undefined`). */
  datatype Callback =
    | ProjectCreated
    | ProjectDeleted(id: Option<int>)
    | UserAdded(projectId: int, userId: int, role: Option<string>)
    | UserRemoved(projectId: int, userId: int)

  const DeletedPrefix: string := "PROJECT_DELETED:"
  const AddedPrefix: string := "USER_ADDED:"
  const RemovedPrefix: string := "USER_REMOVED:"

  /** `parts[i]`, which is `undefined` past the end. */
  function Field(parts: seq<string>, i: nat): Option<string> {
    if i < |parts| then Some(parts[i]) else None
  }

  /** `parseInt(parts[i], 10)`: `undefined` is read as the text
      "undefined", which holds no digit. */
  function NumberField(parts: seq<string>, i: nat): Option<int> {
    ParseInt(if i < |parts| then parts[i] else "undefined")
  }

  /** The `USER_ADDED` branch on the fields of the frame: it fires only when
      both ids are numbers; the role is the fourth field, if any. */
  function OnUserAdded(parts: seq<string>): (r: Option<Callback>)
    ensures r.Some? <==> NumberField(parts, 1).Some? && NumberField(parts, 2).Some?
    ensures r.Some? ==> r.value.UserAdded? && r.value.role == Field(parts, 3)
  {
    var projectId := NumberField(parts, 1);
    var userId := NumberField(parts, 2);
    var role := Field(parts, 3);
    if projectId.Some? && userId.Some? then Some(UserAdded(projectId.value, userId.value, role)) else None
  }

  /** The `USER_REMOVED` branch on the fields of the frame: it fires only
      when both ids are numbers. */
  function OnUserRemoved(parts: seq<string>): (r: Option<Callback>)
    ensures r.Some? <==> NumberField(parts, 1).Some? && NumberField(parts, 2).Some?
    ensures r.Some? ==> r.value.UserRemoved?
  {
    var projectId := NumberField(parts, 1);
    var userId := NumberField(parts, 2);
    if projectId.Some? && userId.Some? then Some(UserRemoved(projectId.value, userId.value)) else None
  }

  /** `socket.onmessage` (useWebSockets.ts:22-55) applied to one frame. A
      `PROJECT_DELETED:` frame fires even when its id is `NaN`; the two user
      notifications fire only when both ids are numbers. */
  function OnMessage(data: string): (r: Option<Callback>)
    ensures r == Some(ProjectCreated) <==> data == "PROJECT_CREATED"
    ensures r.Some? && r.value.ProjectDeleted? <==> data != "PROJECT_CREATED" && StartsWith(data, DeletedPrefix)
    ensures r.Some? ==>
      data == "PROJECT_CREATED" || StartsWith(data, DeletedPrefix) || StartsWith(data, AddedPrefix) || StartsWith(data, RemovedPrefix)
  {
    if data == "PROJECT_CREATED" then Some(ProjectCreated)
    else if StartsWith(data, DeletedPrefix) then
      Some(ProjectDeleted(NumberField(Split(data, ':'), 1)))
    else if StartsWith(data, AddedPrefix) then
      OnUserAdded(Split(data, ':'))
    else if StartsWith(data, RemovedPrefix) then
      OnUserRemoved(Split(data, ':'))
    else None
  }

  /** The handler with the `isNaN` check of the two user notifications
      applied to `PROJECT_DELETED:` as well: it agrees with `OnMessage`
      except that a deletion without a numeric id fires nothing. */
  function OnMessageChecked(data: string): (r: Option<Callback>)
    ensures r.Some? && r.value.ProjectDeleted? ==> r.value.id.Some?
    ensures r == OnMessage(data) || (r.None? && OnMessage(data) == Some(ProjectDeleted(None)))
  {
    if data == "PROJECT_CREATED" then Some(ProjectCreated)
    else if StartsWith(data, DeletedPrefix) then
      var id := NumberField(Split(data, ':'), 1);
      if id.Some? then Some(ProjectDeleted(id)) else None
    else if StartsWith(data, AddedPrefix) then
      OnUserAdded(Split(data, ':'))
    else if StartsWith(data, RemovedPrefix) then
      OnUserRemoved(Split(data, ':'))
    else None
  }

  // ---------------------------------------------------------------------------
  // Frames as a server would print them

  function DeletedFrame(id: int): string {
    DeletedPrefix + Decimal(id)
  }

  function AddedFrame(projectId: int, userId: int, role: string): string {
    AddedPrefix + (Decimal(projectId) + ":" + Decimal(userId) + ":" + role)
  }

  function RemovedFrame(projectId: int, userId: int): string {
    RemovedPrefix + (Decimal(projectId) + ":" + Decimal(userId))
  }

  lemma ParseIntOfWholeDecimal(n: int)
    ensures ParseInt(Decimal(n)) == Some(n)
  {
    ParseIntOfDecimal(n, "");
    assert Decimal(n) + "" == Decimal(n);
  }

  lemma StartsWithConcat(prefix: string, rest: string)
    ensures StartsWith(prefix + rest, prefix)
  {
    assert (prefix + rest)[..|prefix|] == prefix;
  }

  /** Which branches a frame cannot take, judged by its first character. */
  lemma FirstCharRules(s: string)
    requires |s| > 0
    ensures s[0] != 'P' ==> s != "PROJECT_CREATED" && !StartsWith(s, DeletedPrefix)
    ensures s[0] != 'U' ==> !StartsWith(s, AddedPrefix) && !StartsWith(s, RemovedPrefix)
  {
    if StartsWith(s, DeletedPrefix) {
      assert s[0] == s[..|DeletedPrefix|][0];
    }
    if StartsWith(s, AddedPrefix) {
      assert s[0] == s[..|AddedPrefix|][0];
    }
    if StartsWith(s, RemovedPrefix) {
      assert s[0] == s[..|RemovedPrefix|][0];
    }
  }

  lemma DeletedIsNotCreated(rest: string)
    ensures DeletedPrefix + rest != "PROJECT_CREATED"
  {
    assert |DeletedPrefix + rest| > |"PROJECT_CREATED"|;
  }

  lemma RemovedIsNotAdded(rest: string)
    ensures !StartsWith(RemovedPrefix + rest, AddedPrefix)
  {
    assert (RemovedPrefix + rest)[5] == 'R' != AddedPrefix[5];
  }

  /** Splitting a frame on `:` gives its tag, then the fields of the rest. */
  lemma SplitFrame(tag: string, rest: string)
    requires ':' !in tag
    ensures Split(tag + ":" + rest, ':') == [tag] + Split(rest, ':')
  {
    SplitAfterField(tag, rest, ':');
  }

  /** The branch a frame with one of the three prefixes takes, with its
      fields as `split(":")` gives them. */
  lemma OnDeletedFields(data: string, parts: seq<string>)
    requires StartsWith(data, DeletedPrefix) && data != "PROJECT_CREATED"
    requires Split(data, ':') == parts
    ensures OnMessage(data) == Some(ProjectDeleted(NumberField(parts, 1)))
    ensures OnMessageChecked(data) == if NumberField(parts, 1).Some? then OnMessage(data) else None
  {
  }

  lemma OnAddedFields(data: string, parts: seq<string>)
    requires StartsWith(data, AddedPrefix) && !StartsWith(data, DeletedPrefix) && data != "PROJECT_CREATED"
    requires Split(data, ':') == parts
    ensures OnMessage(data) == OnUserAdded(parts)
  {
  }

  lemma OnRemovedFields(data: string, parts: seq<string>)
    requires StartsWith(data, RemovedPrefix) && !StartsWith(data, AddedPrefix) && !StartsWith(data, DeletedPrefix) && data != "PROJECT_CREATED"
    requires Split(data, ':') == parts
    ensures OnMessage(data) == OnUserRemoved(parts)
  {
  }

  /** Two fields that parse as numbers are the ids the callback gets. */
  lemma UserAddedOfNumbers(tag: string, a: string, b: string, role: string, p: int, u: int)
    requires ParseInt(a) == Some(p) && ParseInt(b) == Some(u)
    ensures OnUserAdded([tag, a, b, role]) == Some(UserAdded(p, u, Some(role)))
  {
    var parts := [tag, a, b, role];
    assert parts[1] == a && parts[2] == b && parts[3] == role;
  }

  lemma UserRemovedOfNumbers(tag: string, a: string, b: string, p: int, u: int)
    requires ParseInt(a) == Some(p) && ParseInt(b) == Some(u)
    ensures OnUserRemoved([tag, a, b]) == Some(UserRemoved(p, u))
  {
    var parts := [tag, a, b];
    assert parts[1] == a && parts[2] == b;
  }

  /** A `PROJECT_DELETED` frame reaches `onProjectDeleted` with the id it
      was printed with, under both handlers. */
  lemma DeletedRoundTrip(p: int)
    ensures OnMessage(DeletedFrame(p)) == Some(ProjectDeleted(Some(p)))
    ensures OnMessageChecked(DeletedFrame(p)) == Some(ProjectDeleted(Some(p)))
  {
    var d := Decimal(p);
    StartsWithConcat(DeletedPrefix, d);
    DeletedIsNotCreated(d);
    assert Split(DeletedPrefix + d, ':') == ["PROJECT_DELETED", d] by {
      assert DeletedPrefix + d == "PROJECT_DELETED" + ":" + d;
      SplitFrame("PROJECT_DELETED", d);
      DecimalHasNoColon(p);
      SplitWithoutSep(d, ':');
    }
    ParseIntOfWholeDecimal(p);
    OnDeletedFields(DeletedPrefix + d, ["PROJECT_DELETED", d]);
  }

  /** A `USER_ADDED` frame reaches `onUserAdded` with the two ids it was
      printed with and its role, when the role has no colon. */
  lemma AddedRoundTrip(p: int, u: int, role: string)
    requires ':' !in role
    ensures OnMessage(AddedFrame(p, u, role)) == Some(UserAdded(p, u, Some(role)))
  {
    var a := Decimal(p);
    var b := Decimal(u);
    var rest := a + ":" + b + ":" + role;
    StartsWithConcat(AddedPrefix, rest);
    FirstCharRules(AddedPrefix + rest);
    assert Split(AddedPrefix + rest, ':') == ["USER_ADDED", a, b, role] by {
      assert AddedPrefix + rest == "USER_ADDED" + ":" + rest;
      SplitFrame("USER_ADDED", rest);
      DecimalHasNoColon(p);
      DecimalHasNoColon(u);
      assert rest == a + [':'] + (b + [':'] + role);
      SplitAfterField(a, b + [':'] + role, ':');
      SplitAfterField(b, role, ':');
      SplitWithoutSep(role, ':');
    }
    OnAddedFields(AddedPrefix + rest, ["USER_ADDED", a, b, role]);
    ParseIntOfWholeDecimal(p);
    ParseIntOfWholeDecimal(u);
    UserAddedOfNumbers("USER_ADDED", a, b, role, p, u);
  }

  /** A `USER_REMOVED` frame reaches `onUserRemoved` with the two ids it was
      printed with. */
  lemma RemovedRoundTrip(p: int, u: int)
    ensures OnMessage(RemovedFrame(p, u)) == Some(UserRemoved(p, u))
  {
    var a := Decimal(p);
    var b := Decimal(u);
    var rest := a + ":" + b;
    StartsWithConcat(RemovedPrefix, rest);
    FirstCharRules(RemovedPrefix + rest);
    RemovedIsNotAdded(rest);
    assert Split(RemovedPrefix + rest, ':') == ["USER_REMOVED", a, b] by {
      assert RemovedPrefix + rest == "USER_REMOVED" + ":" + rest;
      SplitFrame("USER_REMOVED", rest);
      DecimalHasNoColon(p);
      DecimalHasNoColon(u);
      SplitAfterField(a, b, ':');
      SplitWithoutSep(b, ':');
    }
    OnRemovedFields(RemovedPrefix + rest, ["USER_REMOVED", a, b]);
    ParseIntOfWholeDecimal(p);
    ParseIntOfWholeDecimal(u);
    UserRemovedOfNumbers("USER_REMOVED", a, b, p, u);
  }

  /** The task notifications the task service broadcasts trigger none of the
      hook's callbacks. */
  lemma TaskNotificationsIgnored(projectID: int, taskID: int)
    ensures OnMessage(TaskService.CreatedNotification(projectID)) == None
    ensures OnMessage(TaskService.UpdatedNotification(projectID, taskID)) == None
  {
    var c := TaskService.CreatedNotification(projectID);
    var u := TaskService.UpdatedNotification(projectID, taskID);
    assert c[0] == 'T' && u[0] == 'T';
    FirstCharRules(c);
    FirstCharRules(u);
  }

  /** As written, a `PROJECT_DELETED:` frame whose id is not a number still
      calls `onProjectDeleted`, with `NaN`; the checked handler ignores it. */
  lemma DeletedWithoutNumberFires()
    ensures OnMessage("PROJECT_DELETED:x") == Some(ProjectDeleted(None))
    ensures OnMessageChecked("PROJECT_DELETED:x") == None
  {
    var data := DeletedPrefix + "x";
    assert data == "PROJECT_DELETED:x";
    StartsWithConcat(DeletedPrefix, "x");
    DeletedIsNotCreated("x");
    assert Split(data, ':') == ["PROJECT_DELETED", "x"] by {
      assert data == "PROJECT_DELETED" + ":" + "x";
      SplitFrame("PROJECT_DELETED", "x");
      SplitWithoutSep("x", ':');
    }
    ParseIntWithoutDigits("x");
    OnDeletedFields(data, ["PROJECT_DELETED", "x"]);
  }
}
