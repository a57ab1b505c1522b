/** The in-memory chat message store used by the tests
    (internal/domain/messages/fake_repository.go). A message belongs to a
    project board when its project id is set, and is a direct message when its
    receiver id is set. */
module MessageRepo {
  import opened Wrappers
  import opened Seqs

  /** `Message` (messages/message.go); the creation time is not modelled. */
  datatype Message = Message(
    ID: int,
    SenderID: int,
    SenderEmail: string,
    Content: string,
    ProjectID: Option<int>,
    ReceiverID: Option<int>)

  /** The sender e-mail the fake stamps on every stored message. */
  const FakeSenderEmail: string := "test@example.com"

  predicate OnBoard(m: Message, projectID: int) {
    m.ProjectID == Some(projectID)
  }

  /** A direct message between `a` and `b`, in either direction. */
  predicate InConversation(m: Message, a: int, b: int) {
    m.ReceiverID.Some? &&
    ((m.SenderID == a && m.ReceiverID.value == b) || (m.SenderID == b && m.ReceiverID.value == a))
  }

  function BoardOf(messages: seq<Message>, projectID: int): seq<Message> {
    Filter(messages, (m: Message) => OnBoard(m, projectID))
  }

  function ConversationOf(messages: seq<Message>, a: int, b: int): seq<Message> {
    Filter(messages, (m: Message) => InConversation(m, a, b))
  }

  /** A conversation is the same set of messages, in the same order, whichever
      side asks for it, and holds exactly the direct messages between the two. */
  lemma {:induction false} ConversationSymmetric(messages: seq<Message>, a: int, b: int)
    ensures ConversationOf(messages, a, b) == ConversationOf(messages, b, a)
    ensures forall m :: m in ConversationOf(messages, a, b) <==> m in messages && InConversation(m, a, b)
    decreases |messages|
  {
    FilterMembers(messages, (m: Message) => InConversation(m, a, b));
    if |messages| > 0 {
      ConversationSymmetric(messages[..|messages| - 1], a, b);
    }
  }

  /** A project board holds exactly the messages posted to that project, and
      no direct message unless it also carries that project id. */
  lemma BoardExact(messages: seq<Message>, projectID: int)
    ensures forall m :: m in BoardOf(messages, projectID) <==> m in messages && m.ProjectID == Some(projectID)
  {
    FilterMembers(messages, (m: Message) => OnBoard(m, projectID));
  }

  /** A message posted to a project board never shows up in any conversation,
      and a direct message never shows up on any board. */
  lemma BoardsAndConversationsDisjoint(messages: seq<Message>, projectID: int, a: int, b: int)
    requires forall i :: 0 <= i < |messages| ==> messages[i].ProjectID.None? || messages[i].ReceiverID.None?
    ensures forall m :: m in BoardOf(messages, projectID) ==> m !in ConversationOf(messages, a, b)
  {
    FilterMembers(messages, (m: Message) => OnBoard(m, projectID));
    FilterMembers(messages, (m: Message) => InConversation(m, a, b));
  }

  class FakeRepository {
    var messages: seq<Message>
    var nextID: int

    /** Stored ids are positive, below the counter, and increase along the
        store. */
    ghost predicate Valid()
      reads this
    {
      && nextID >= 1
      && (forall i :: 0 <= i < |messages| ==> 1 <= messages[i].ID < nextID)
      && (forall i, j :: 0 <= i < j < |messages| ==> messages[i].ID < messages[j].ID)
    }

    /** `NewFakeRepository` */
    constructor ()
      ensures Valid()
      ensures messages == [] && nextID == 1
    {
      messages := [];
      nextID := 1;
    }

    /** `Create` (fake_repository.go:20-29): the message gets the next id and
        the fixed sender e-mail, and is appended. */
    method Create(m: Message) returns (saved: Message)
      requires Valid()
      modifies this
      ensures Valid()
      ensures saved == m.(ID := old(nextID), SenderEmail := FakeSenderEmail)
      ensures nextID == old(nextID) + 1 && messages == old(messages) + [saved]
      ensures forall i :: 0 <= i < |old(messages)| ==> old(messages)[i].ID < saved.ID
    {
      saved := m.(ID := nextID, SenderEmail := FakeSenderEmail);
      nextID := nextID + 1;
      messages := messages + [saved];
    }

    /** `GetByProject` (fake_repository.go:31-39) */
    method GetByProject(projectID: int) returns (res: seq<Message>)
      ensures res == BoardOf(messages, projectID)
    {
      res := [];
      for i := 0 to |messages|
        invariant res == BoardOf(messages[..i], projectID)
      {
        assert messages[..i + 1][..i] == messages[..i];
        var m := messages[i];
        if m.ProjectID.Some? && m.ProjectID.value == projectID {
          res := res + [m];
        }
      }
      assert messages[..|messages|] == messages;
    }

    /** `GetDirectMessages` (fake_repository.go:41-55): messages without a
        receiver are skipped; the rest are kept when they go from one of the
        two users to the other. */
    method GetDirectMessages(userA: int, userB: int) returns (res: seq<Message>)
      ensures res == ConversationOf(messages, userA, userB)
    {
      res := [];
      for i := 0 to |messages|
        invariant res == ConversationOf(messages[..i], userA, userB)
      {
        assert messages[..i + 1][..i] == messages[..i];
        var m := messages[i];
        if m.ReceiverID.None? {
          continue;
        }
        var isAtoB := m.SenderID == userA && m.ReceiverID.value == userB;
        var isBtoA := m.SenderID == userB && m.ReceiverID.value == userA;
        if isAtoB || isBtoA {
          res := res + [m];
        }
      }
      assert messages[..|messages|] == messages;
    }
  }
}
