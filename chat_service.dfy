/** The chat gateway (internal/domain/messages/service.go). Every send is
    authorised first, stored second and dispatched to the hub last: a refused
    or unstored message reaches no client.

    The repositories are the in-memory ones. Failures that only a database
    implementation can produce (the member list or the shared-project query
    failing, the insert failing) are explicit inputs of the operations, and
    `json.Marshal` of the envelope is the parameter `encode`. */
module MessageService {
  import opened Wrappers
  import opened Text
  import opened Seqs
  import Ws
  import ProjectRepo
  import MessageRepo

  type Message = MessageRepo.Message

  /** The `{"type": ..., "data": saved}` object that is marshalled and sent. */
  datatype Envelope = Envelope(Type: string, Data: Message)

  const ProjectMessageType: string := "new_project_message"
  const DirectMessageType: string := "new_direct_message"

  const ErrNotSharing: string := "you can only message users who share a project with you"

  /** The refusal sent to a sender outside the project. */
  function Unauthorized(senderID: int, projectName: string): (e: string)
    ensures |e| >= 12 && e[..12] == "unauthorized"
  {
    "unauthorized: user " + Decimal(senderID) + " is not a member of project " + projectName
  }

  /** Why a project message is refused before it is stored, if it is: the
      project must exist, its member list must be available, and the sender
      must be on that list. */
  function ProjectMessageRefusal(
    projects: seq<ProjectRepo.Project>, entries: seq<ProjectRepo.Membership>,
    senderID: int, projectID: int, membersFault: Option<string>): (e: Option<string>)
    ensures e.None? <==>
      ProjectRepo.HasProject(projects, projectID) && membersFault.None? && ProjectRepo.IsMember(entries, projectID, senderID)
    ensures !ProjectRepo.HasProject(projects, projectID) ==>
      e == Some("project not found: " + ProjectRepo.ErrProjectNotFound)
    ensures ProjectRepo.HasProject(projects, projectID) && membersFault.Some? ==>
      e == Some("could not fetch project members: " + membersFault.value)
    ensures ProjectRepo.HasProject(projects, projectID) && membersFault.None? && !ProjectRepo.IsMember(entries, projectID, senderID) ==>
      e == Some(Unauthorized(senderID, ProjectRepo.Lookup(projects, projectID).value.Name))
  {
    var members := ProjectRepo.MembersOf(entries, projectID);
    ProjectRepo.MembersOfExact(entries, projectID, senderID);
    if !ProjectRepo.HasProject(projects, projectID) then
      Some("project not found: " + ProjectRepo.ErrProjectNotFound)
    else if membersFault.Some? then
      Some("could not fetch project members: " + membersFault.value)
    else if exists k :: 0 <= k < |members| && members[k].ID == senderID then
      None
    else
      Some(Unauthorized(senderID, ProjectRepo.Lookup(projects, projectID).value.Name))
  }

  /** Why a direct message is refused before it is stored, if it is. */
  function DirectMessageRefusal(
    entries: seq<ProjectRepo.Membership>, senderID: int, receiverID: int, shareFault: Option<string>): (e: Option<string>)
    ensures e.None? <==> shareFault.None? && ProjectRepo.SharesProject(entries, senderID, receiverID)
    ensures shareFault.Some? ==> e == Some("could not verify connection: " + shareFault.value)
    ensures shareFault.None? && !ProjectRepo.SharesProject(entries, senderID, receiverID) ==> e == Some(ErrNotSharing)
  {
    if shareFault.Some? then Some("could not verify connection: " + shareFault.value)
    else if !ProjectRepo.SharesProject(entries, senderID, receiverID) then Some(ErrNotSharing)
    else None
  }

  /** How many copies of a direct message user `u` is sent: one as receiver
      and one as sender, so two when a user writes to themself. */
  function DirectCopies(u: int, senderID: int, receiverID: int): nat {
    (if u == receiverID then 1 else 0) + (if u == senderID then 1 else 0)
  }

  /** A stored project message extends that project's board by itself and
      leaves every conversation as it was. */
  lemma ProjectMessageLandsOnBoard(messages: seq<Message>, m: Message, projectID: int, a: int, b: int)
    requires m.ProjectID == Some(projectID) && m.ReceiverID.None?
    ensures MessageRepo.BoardOf(messages + [m], projectID) == MessageRepo.BoardOf(messages, projectID) + [m]
    ensures MessageRepo.ConversationOf(messages + [m], a, b) == MessageRepo.ConversationOf(messages, a, b)
  {
    FilterAppend(messages, [m], (x: Message) => MessageRepo.OnBoard(x, projectID));
    FilterAppend(messages, [m], (x: Message) => MessageRepo.InConversation(x, a, b));
    assert [m][..0] == [];
  }

  /** A stored direct message extends the conversation of its two users, as
      either of them reads it, by itself, and leaves every board as it was. */
  lemma DirectMessageLandsInConversation(messages: seq<Message>, m: Message, senderID: int, receiverID: int, p: int)
    requires m.SenderID == senderID && m.ReceiverID == Some(receiverID) && m.ProjectID.None?
    ensures MessageRepo.ConversationOf(messages + [m], senderID, receiverID) == MessageRepo.ConversationOf(messages, senderID, receiverID) + [m]
    ensures MessageRepo.ConversationOf(messages + [m], receiverID, senderID) == MessageRepo.ConversationOf(messages, receiverID, senderID) + [m]
    ensures MessageRepo.BoardOf(messages + [m], p) == MessageRepo.BoardOf(messages, p)
  {
    FilterAppend(messages, [m], (x: Message) => MessageRepo.InConversation(x, senderID, receiverID));
    FilterAppend(messages, [m], (x: Message) => MessageRepo.InConversation(x, receiverID, senderID));
    FilterAppend(messages, [m], (x: Message) => MessageRepo.OnBoard(x, p));
    assert [m][..0] == [];
  }

  class Service {
    const repo: MessageRepo.FakeRepository
    const projectRepo: ProjectRepo.FakeRepository
    const hub: Ws.Hub

    /** `NewService` (service.go:18-24) */
    constructor (repo: MessageRepo.FakeRepository, projectRepo: ProjectRepo.FakeRepository, hub: Ws.Hub)
      ensures this.repo == repo && this.projectRepo == projectRepo && this.hub == hub
    {
      this.repo := repo;
      this.projectRepo := projectRepo;
      this.hub := hub;
    }

    /** `SendProjectMessage` (service.go:33-81): refused messages are neither
        stored nor sent; an accepted one is stored with the project id and no
        receiver, and the stored record (with its id) is then offered once to
        every member of the project's room and to nobody else. */
    method SendProjectMessage(
      senderID: int, projectID: int, content: string,
      encode: Envelope -> Ws.Payload, membersFault: Option<string>, storeFault: Option<string>)
      returns (r: Result<Message>)
      requires repo.Valid() && hub.Valid()
      modifies repo, Ws.Room(hub.ProjectRooms, projectID)`Send
      ensures repo.Valid() && hub.Valid()
      ensures var refusal := ProjectMessageRefusal(projectRepo.projects, projectRepo.projectUsers, senderID, projectID, membersFault);
        && (refusal.Some? ==> r == Err(refusal.value))
        && (refusal.None? && storeFault.Some? ==> r == Err(storeFault.value))
        && (r.Ok? <==> refusal.None? && storeFault.None?)
      ensures r.Err? ==> repo.messages == old(repo.messages) && repo.nextID == old(repo.nextID)
      ensures r.Err? ==> forall c :: c in Ws.Room(hub.ProjectRooms, projectID) ==> c.Send == old(c.Send)
      ensures r.Ok? ==>
        && ProjectRepo.IsMember(projectRepo.projectUsers, projectID, senderID)
        && r.value == MessageRepo.Message(old(repo.nextID), senderID, MessageRepo.FakeSenderEmail, content, Some(projectID), None)
        && repo.messages == old(repo.messages) + [r.value]
      ensures r.Ok? ==> forall c :: c in Ws.Room(hub.ProjectRooms, projectID) ==>
        c.Send == Ws.Deliver(old(c.Send), encode(Envelope(ProjectMessageType, r.value)))
      ensures forall u :: u in hub.clients && hub.clients[u] !in Ws.Room(hub.ProjectRooms, projectID) ==>
        hub.clients[u].Send == old(hub.clients[u].Send)
    {
      var refusal := AuthorizeProjectMessage(senderID, projectID, membersFault);
      if refusal.Some? {
        return Err(refusal.value);
      }
      var msg := MessageRepo.Message(0, senderID, "", content, Some(projectID), None);
      if storeFault.Some? {
        return Err(storeFault.value);
      }
      var saved := repo.Create(msg);
      hub.BroadcastToProject(projectID, encode(Envelope(ProjectMessageType, saved)));
      return Ok(saved);
    }

    /** The checks of `SendProjectMessage` before the message is stored
        (service.go:35-58): the project lookup, the member list, and the scan
        of that list for the sender. */
    method AuthorizeProjectMessage(senderID: int, projectID: int, membersFault: Option<string>) returns (refusal: Option<string>)
      ensures refusal == ProjectMessageRefusal(projectRepo.projects, projectRepo.projectUsers, senderID, projectID, membersFault)
    {
      ProjectRepo.MembersOfExact(projectRepo.projectUsers, projectID, senderID);
      var project := projectRepo.GetByID(projectID);
      if project.Err? {
        return Some("project not found: " + project.error);
      }
      if membersFault.Some? {
        return Some("could not fetch project members: " + membersFault.value);
      }
      var members := projectRepo.ListUsersInProject(projectID);
      var isAuthorized := false;
      for i := 0 to |members|
        invariant isAuthorized <==> exists k :: 0 <= k < i && members[k].ID == senderID
      {
        if members[i].ID == senderID {
          isAuthorized := true;
          break;
        }
      }
      if !isAuthorized {
        return Some(Unauthorized(senderID, project.value.Name));
      }
      return None;
    }

    /** `GetProjectHistory` (service.go:83-85) */
    method GetProjectHistory(projectID: int) returns (res: seq<Message>)
      ensures res == MessageRepo.BoardOf(repo.messages, projectID)
    {
      res := repo.GetByProject(projectID);
    }

    /** `SendDirectMessage` (service.go:88-115): refused messages are neither
        stored nor sent; an accepted one is stored with the receiver id and no
        project, and the stored record is then offered to the receiver and to
        the sender (twice to a user writing to themself), and to nobody
        else. */
    method SendDirectMessage(
      senderID: int, receiverID: int, content: string,
      encode: Envelope -> Ws.Payload, shareFault: Option<string>, storeFault: Option<string>)
      returns (r: Result<Message>)
      requires repo.Valid() && hub.Valid()
      modifies repo, hub.clients.Values`Send
      ensures repo.Valid() && hub.Valid()
      ensures var refusal := DirectMessageRefusal(projectRepo.projectUsers, senderID, receiverID, shareFault);
        && (refusal.Some? ==> r == Err(refusal.value))
        && (refusal.None? && storeFault.Some? ==> r == Err(storeFault.value))
        && (r.Ok? <==> refusal.None? && storeFault.None?)
      ensures r.Err? ==> repo.messages == old(repo.messages) && repo.nextID == old(repo.nextID)
      ensures r.Err? ==> forall u :: u in hub.clients ==> hub.clients[u].Send == old(hub.clients[u].Send)
      ensures r.Ok? ==>
        && ProjectRepo.SharesProject(projectRepo.projectUsers, senderID, receiverID)
        && r.value == MessageRepo.Message(old(repo.nextID), senderID, MessageRepo.FakeSenderEmail, content, None, Some(receiverID))
        && repo.messages == old(repo.messages) + [r.value]
      ensures r.Ok? ==> forall u :: u in hub.clients ==>
        hub.clients[u].Send ==
          Ws.DeliverTimes(old(hub.clients[u].Send), encode(Envelope(DirectMessageType, r.value)), DirectCopies(u, senderID, receiverID))
    {
      if shareFault.Some? {
        return Err("could not verify connection: " + shareFault.value);
      }
      var shared := projectRepo.UsersShareProject(senderID, receiverID);
      if !shared {
        return Err(ErrNotSharing);
      }
      var msg := MessageRepo.Message(0, senderID, "", content, None, Some(receiverID));
      if storeFault.Some? {
        return Err(storeFault.value);
      }
      var saved := repo.Create(msg);
      var payload := encode(Envelope(DirectMessageType, saved));
      hub.SendToUser(receiverID, payload);
      hub.SendToUser(senderID, payload);
      return Ok(saved);
    }

    /** `GetDMHistory` (service.go:118-120) */
    method GetDMHistory(userA: int, userB: int) returns (res: seq<Message>)
      ensures res == MessageRepo.ConversationOf(repo.messages, userA, userB)
    {
      res := repo.GetDirectMessages(userA, userB);
    }
  }
}
