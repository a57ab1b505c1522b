/** The pure helpers of the task board component
    (frontend/src/components/TaskBoard.tsx): the rewriting of "user <id>" in a
    history entry into the member's e-mail, the rule that shows the Update
    button, the three status columns, and the local edit of a task's
    assignee. */
module TaskBoard {
  import opened Wrappers
  import opened Text
  import opened JsText
  import opened Seqs
  import TaskService

  /** A task as the board receives it from the server. */
  datatype Task = Task(id: int, project_id: int, title: string, description: string, status: string, assigned_to: Option<int>)

  /** A project member as the board receives it. */
  datatype User = User(id: int, email: string)

  // ---------------------------------------------------------------------------
  // formatActivityDetails (TaskBoard.tsx:74-79)

  /** The literal part of the pattern `/user (\d+)/g`. */
  const MentionWord: string := "user "

  /** The pattern matches at position `i`: the word, then at least one
      decimal digit. */
  predicate MentionAt(s: string, i: nat) {
    i + |MentionWord| < |s| && s[i..i + |MentionWord|] == MentionWord && IsDigit(s[i + |MentionWord|])
  }

  predicate HasMention(s: string) {
    exists i :: 0 <= i < |s| && MentionAt(s, i)
  }

  /** The text as the global regular expression scan cuts it: characters
      left alone, and matches, each with its (greedy) digit group and the
      number `parseInt` reads from it. */
  datatype Piece = Plain(c: char) | Mention(digits: string, id: nat)

  /** The left-to-right scan of `String.prototype.replace` with a global
      pattern: at a match, the match is taken and the scan resumes after it;
      elsewhere one character is kept and the scan moves on by one. */
  function Tokenize(s: string): seq<Piece>
    decreases |s|
  {
    if |s| == 0 then []
    else if MentionAt(s, 0) then
      var d := LeadingDigits(s[|MentionWord|..]);
      [Mention(d, DigitsValue(d))] + Tokenize(s[|MentionWord| + |d|..])
    else [Plain(s[0])] + Tokenize(s[1..])
  }

  /** The text a piece was cut from. */
  function PieceText(p: Piece): string {
    match p
    case Plain(c) => [c]
    case Mention(d, _) => MentionWord + d
  }

  function Render(ps: seq<Piece>): string
    decreases |ps|
  {
    if |ps| == 0 then "" else PieceText(ps[0]) + Render(ps[1..])
  }

  /** `members.find(m => m.id === id)`: the first member with that id. */
  function FindMember(members: seq<User>, id: int): (r: Option<User>)
    ensures r.Some? <==> exists i :: 0 <= i < |members| && members[i].id == id
    ensures r.Some? ==>
      (exists i :: 0 <= i < |members| && members[i] == r.value && r.value.id == id && forall j :: 0 <= j < i ==> members[j].id != id)
    decreases |members|
  {
    if |members| == 0 then None
    else if members[0].id == id then Some(members[0])
    else
      var r := FindMember(members[1..], id);
      assert forall i :: 1 <= i < |members| ==> members[i] == members[1..][i - 1];
      r
  }

  /** What a piece is shown as: a match becomes the member's e-mail, or
      `User <digits>` when no member has that id. */
  function PieceShown(p: Piece, members: seq<User>): string {
    match p
    case Plain(c) => [c]
    case Mention(d, id) =>
      match FindMember(members, id)
      case Some(m) => m.email
      case None => "User " + d
  }

  function Substitute(ps: seq<Piece>, members: seq<User>): string
    decreases |ps|
  {
    if |ps| == 0 then "" else PieceShown(ps[0], members) + Substitute(ps[1..], members)
  }

  /** `formatActivityDetails(details)` */
  function FormatActivityDetails(details: string, members: seq<User>): (r: string)
    ensures details == "" ==> r == ""
  {
    if details == "" then "" else Substitute(Tokenize(details), members)
  }

  lemma RenderCons(p: Piece, ps: seq<Piece>)
    ensures Render([p] + ps) == PieceText(p) + Render(ps)
  {
    assert ([p] + ps)[1..] == ps;
  }

  lemma SubstituteCons(p: Piece, ps: seq<Piece>, members: seq<User>)
    ensures Substitute([p] + ps, members) == PieceShown(p, members) + Substitute(ps, members)
  {
    assert ([p] + ps)[1..] == ps;
  }

  /** A match is the word, its digit group, then the rest of the text. */
  lemma MentionParts(s: string)
    requires MentionAt(s, 0)
    ensures var d := LeadingDigits(s[|MentionWord|..]);
      |d| >= 1 && AllDigits(d) && s == MentionWord + d + s[|MentionWord| + |d|..]
  {
    var t := s[|MentionWord|..];
    var d := LeadingDigits(t);
    assert s == s[..|MentionWord|] + t;
    assert t == t[..|d|] + t[|d|..];
    assert t[|d|..] == s[|MentionWord| + |d|..];
  }

  /** Cutting loses and adds nothing: the pieces put back together are the
      text. */
  lemma {:induction false} RenderTokenize(s: string)
    ensures Render(Tokenize(s)) == s
    decreases |s|
  {
    if |s| > 0 {
      if MentionAt(s, 0) {
        var d := LeadingDigits(s[|MentionWord|..]);
        var rest := s[|MentionWord| + |d|..];
        MentionParts(s);
        RenderTokenize(rest);
        RenderCons(Mention(d, DigitsValue(d)), Tokenize(rest));
      } else {
        RenderTokenize(s[1..]);
        RenderCons(Plain(s[0]), Tokenize(s[1..]));
        assert s == [s[0]] + s[1..];
      }
    }
  }

  lemma MentionShifts(s: string, i: nat)
    requires |s| > 0 && i < |s| - 1
    ensures MentionAt(s[1..], i) <==> MentionAt(s, i + 1)
  {
    var t := s[1..];
    if i + |MentionWord| < |t| {
      var x := t[i..i + |MentionWord|];
      var y := s[i + 1..i + 1 + |MentionWord|];
      assert forall k :: 0 <= k < |x| ==> x[k] == y[k];
      assert x == y;
    }
  }

  predicate HasMentionPiece(ps: seq<Piece>) {
    exists k :: 0 <= k < |ps| && ps[k].Mention?
  }

  /** Past a first character that starts no match, the text has a match
      exactly when its tail has one. */
  lemma HasMentionTail(s: string)
    requires |s| > 0 && !MentionAt(s, 0)
    ensures HasMention(s) <==> HasMention(s[1..])
  {
    if HasMention(s) {
      var i :| 0 <= i < |s| && MentionAt(s, i);
      MentionShifts(s, i - 1);
    }
    if HasMention(s[1..]) {
      var i :| 0 <= i < |s[1..]| && MentionAt(s[1..], i);
      MentionShifts(s, i);
    }
  }

  lemma HasMentionPieceCons(p: Piece, ps: seq<Piece>)
    ensures HasMentionPiece([p] + ps) <==> p.Mention? || HasMentionPiece(ps)
  {
    var q := [p] + ps;
    assert q[0] == p;
    assert forall k :: 0 <= k < |ps| ==> q[k + 1] == ps[k];
    if HasMentionPiece(q) && !p.Mention? {
      var k :| 0 <= k < |q| && q[k].Mention?;
      assert ps[k - 1].Mention?;
    }
  }

  /** The scan finds a match exactly when the pattern occurs in the text. */
  lemma {:induction false} MentionFoundIffPresent(s: string)
    ensures HasMentionPiece(Tokenize(s)) <==> HasMention(s)
    decreases |s|
  {
    if |s| > 0 && !MentionAt(s, 0) {
      MentionFoundIffPresent(s[1..]);
      HasMentionTail(s);
      HasMentionPieceCons(Plain(s[0]), Tokenize(s[1..]));
    } else if |s| > 0 {
      var d := LeadingDigits(s[|MentionWord|..]);
      HasMentionPieceCons(Mention(d, DigitsValue(d)), Tokenize(s[|MentionWord| + |d|..]));
    }
  }

  /** Pieces without a match are shown as the text they were cut from. */
  lemma {:induction false} SubstitutePlain(ps: seq<Piece>, members: seq<User>)
    requires !HasMentionPiece(ps)
    ensures Substitute(ps, members) == Render(ps)
    decreases |ps|
  {
    if |ps| > 0 {
      assert forall k :: 0 <= k < |ps[1..]| ==> ps[1..][k] == ps[k + 1];
      assert ps[0].Plain?;
      SubstitutePlain(ps[1..], members);
    }
  }

  /** Text in which the pattern does not occur is shown as it is. */
  lemma FormatWithoutMention(details: string, members: seq<User>)
    requires !HasMention(details)
    ensures Substitute(Tokenize(details), members) == details
    ensures FormatActivityDetails(details, members) == details
  {
    MentionFoundIffPresent(details);
    SubstitutePlain(Tokenize(details), members);
    RenderTokenize(details);
  }

  /** Each character of `p` as a piece of its own. */
  function Plains(p: string): (ps: seq<Piece>)
    ensures |ps| == |p|
    decreases |p|
  {
    if |p| == 0 then [] else [Plain(p[0])] + Plains(p[1..])
  }

  /** A prefix without the letter `u` is cut into plain characters. */
  lemma {:induction false} TokenizeWithoutU(p: string, rest: string)
    requires 'u' !in p
    ensures Tokenize(p + rest) == Plains(p) + Tokenize(rest)
    decreases |p|
  {
    if |p| == 0 {
      assert p + rest == rest;
    } else {
      var s := p + rest;
      assert s[0] == p[0] != 'u';
      assert !MentionAt(s, 0) by {
        if |MentionWord| < |s| {
          assert s[..|MentionWord|][0] == s[0];
        }
      }
      assert s[1..] == p[1..] + rest;
      TokenizeWithoutU(p[1..], rest);
      assert [Plain(p[0])] + (Plains(p[1..]) + Tokenize(rest)) == ([Plain(p[0])] + Plains(p[1..])) + Tokenize(rest);
    }
  }

  /** Plain characters are shown as they are. */
  lemma {:induction false} SubstitutePlains(p: string, ps: seq<Piece>, members: seq<User>)
    ensures Substitute(Plains(p) + ps, members) == p + Substitute(ps, members)
    decreases |p|
  {
    if |p| == 0 {
      assert Plains(p) + ps == ps;
    } else {
      var tail := Substitute(ps, members);
      SubstitutePlains(p[1..], ps, members);
      assert Plains(p) + ps == [Plain(p[0])] + (Plains(p[1..]) + ps);
      SubstituteCons(Plain(p[0]), Plains(p[1..]) + ps, members);
      assert PieceShown(Plain(p[0]), members) == [p[0]];
      assert [p[0]] + (p[1..] + tail) == p + tail by {
        assert p == [p[0]] + p[1..];
      }
    }
  }

  /** Text without the letter `u` before the rest passes through
      unchanged. */
  lemma SubstituteWithoutU(p: string, rest: string, members: seq<User>)
    requires 'u' !in p
    ensures Substitute(Tokenize(p + rest), members) == p + Substitute(Tokenize(rest), members)
  {
    TokenizeWithoutU(p, rest);
    SubstitutePlains(p, Tokenize(rest), members);
  }

  /** `user <n>` for a non-negative `n` is one match. */
  lemma MentionOfNatural(n: int)
    requires n >= 0
    ensures Tokenize(MentionWord + Decimal(n)) == [Mention(Decimal(n), n)]
  {
    var d := Decimal(n);
    var tail := MentionWord + d;
    assert MentionAt(tail, 0) by {
      assert tail[..|MentionWord|] == MentionWord;
      assert tail[|MentionWord|] == d[0];
    }
    assert tail[|MentionWord|..] == d;
    LeadingDigitsStop(d, "");
    assert d + "" == d;
    assert tail[|MentionWord| + |d|..] == "";
    assert d == NatDigits(n);
  }

  /** `user -<n>` holds no match. */
  lemma NoMentionOfNegative(n: int)
    requires n < 0
    ensures !HasMention(MentionWord + Decimal(n))
  {
    var d := Decimal(n);
    var tail := MentionWord + d;
    forall i | 0 <= i < |tail|
      ensures !MentionAt(tail, i)
    {
      if i == 0 {
        assert tail[|MentionWord|] == d[0] == '-';
      } else if i + |MentionWord| < |tail| {
        assert tail[i..i + |MentionWord|][0] == tail[i];
        if i >= |MentionWord| {
          assert tail[i] == d[i - |MentionWord|];
          assert d[i - |MentionWord|] == '-' || IsDigit(d[i - |MentionWord|]);
        } else {
          assert tail[i] == MentionWord[i];
        }
      }
    }
  }

  const CreatedPrefix: string := "Task created and assigned to "

  lemma CreatedPrefixWithoutU()
    ensures 'u' !in CreatedPrefix
  {
    forall i | 0 <= i < |CreatedPrefix|
      ensures CreatedPrefix[i] != 'u'
    {
    }
  }

  /** The fixed start of a creation entry is shown as it is. */
  lemma FormatCreatedSplits(assignee: int, members: seq<User>)
    ensures TaskService.CreatedDetails(assignee) == CreatedPrefix + (MentionWord + Decimal(assignee))
    ensures FormatActivityDetails(TaskService.CreatedDetails(assignee), members) ==
      CreatedPrefix + Substitute(Tokenize(MentionWord + Decimal(assignee)), members)
  {
    var tail := MentionWord + Decimal(assignee);
    assert TaskService.CreatedDetails(assignee) == CreatedPrefix + tail;
    CreatedPrefixWithoutU();
    SubstituteWithoutU(CreatedPrefix, tail, members);
  }

  /** What the server's "user <id>" becomes: the member's e-mail, or
      `User <id>`. */
  function Shown(members: seq<User>, id: int): string {
    match FindMember(members, id)
    case Some(m) => m.email
    case None => "User " + Decimal(id)
  }

  /** The history entry the server writes for a new task shows the
      assignee's e-mail, or `User <id>`. */
  lemma FormatCreatedDetails(assignee: int, members: seq<User>)
    requires assignee >= 0
    ensures FormatActivityDetails(TaskService.CreatedDetails(assignee), members) == CreatedPrefix + Shown(members, assignee)
  {
    FormatCreatedSplits(assignee, members);
    var m := Mention(Decimal(assignee), assignee);
    MentionOfNatural(assignee);
    SubstituteCons(m, [], members);
    assert [m] + [] == [m];
    assert PieceShown(m, members) == Shown(members, assignee);
  }

  /** A negative id keeps its `user -` text, because the pattern needs a
      digit right after the space. */
  lemma FormatCreatedDetailsNegative(assignee: int, members: seq<User>)
    requires assignee < 0
    ensures FormatActivityDetails(TaskService.CreatedDetails(assignee), members) == TaskService.CreatedDetails(assignee)
  {
    FormatCreatedSplits(assignee, members);
    var tail := MentionWord + Decimal(assignee);
    NoMentionOfNegative(assignee);
    FormatWithoutMention(tail, members);
  }

  // ---------------------------------------------------------------------------
  // canUpdate (TaskBoard.tsx:151)

  /** The Update button is shown to the project's owner and to the user the
      task is assigned to; `currentUserId` is `None` without a token. */
  predicate CanUpdate(isOwner: bool, assignedTo: Option<int>, currentUserId: Option<int>) {
    isOwner || (assignedTo.Some? && assignedTo == currentUserId)
  }

  /** The button is offered exactly to the users the server lets update the
      task, given that `isOwner` says whether the signed-in user owns the
      project; signed out, only the `isOwner` flag counts. */
  lemma CanUpdateMatchesServer(isOwner: bool, ownerID: int, assignedTo: Option<int>, userID: int)
    requires isOwner <==> ownerID == userID
    ensures CanUpdate(isOwner, assignedTo, Some(userID)) <==> TaskService.MayUpdate(ownerID, assignedTo, userID)
    ensures CanUpdate(isOwner, assignedTo, None) <==> isOwner
  {
  }

  // ---------------------------------------------------------------------------
  // The status columns (TaskBoard.tsx:242-247)

  const Statuses: seq<string> := ["TODO", "IN_PROGRESS", "DONE"]

  predicate HasStatus(t: Task, status: string) {
    t.status == status
  }

  /** `tasks.filter(t => t.status === status)` */
  function Column(tasks: seq<Task>, status: string): (col: seq<Task>)
    ensures |col| <= |tasks|
  {
    Filter(tasks, (t: Task) => HasStatus(t, status))
  }

  /** A column holds exactly the tasks with its status. */
  lemma ColumnExact(tasks: seq<Task>, status: string)
    ensures forall t :: t in Column(tasks, status) <==> t in tasks && t.status == status
  {
    FilterMembers(tasks, (t: Task) => HasStatus(t, status));
  }

  /** A task appended to the list lands at the end of its own column. */
  lemma ColumnSnoc(tasks: seq<Task>, status: string)
    requires |tasks| > 0
    ensures Column(tasks, status) ==
      Column(tasks[..|tasks| - 1], status) + (if tasks[|tasks| - 1].status == status then [tasks[|tasks| - 1]] else [])
  {
  }

  /** `ColumnSnoc` counted as a bag. */
  lemma ColumnBagSnoc(tasks: seq<Task>, status: string)
    requires |tasks| > 0
    ensures multiset(Column(tasks, status)) ==
      multiset(Column(tasks[..|tasks| - 1], status)) +
      (if tasks[|tasks| - 1].status == status then multiset{tasks[|tasks| - 1]} else multiset{})
  {
    ColumnSnoc(tasks, status);
  }

  /** One step of the partition count: the new task lands in exactly one of
      the three bags. */
  lemma BagStep<T>(fa: multiset<T>, fb: multiset<T>, fc: multiset<T>, ta: multiset<T>, tb: multiset<T>, tc: multiset<T>,
                   front: multiset<T>, whole: multiset<T>, x: T, ia: bool, ib: bool, ic: bool)
    requires fa + fb + fc == front && whole == front + multiset{x}
    requires ta == fa + (if ia then multiset{x} else multiset{})
    requires tb == fb + (if ib then multiset{x} else multiset{})
    requires tc == fc + (if ic then multiset{x} else multiset{})
    requires (ia && !ib && !ic) || (!ia && ib && !ic) || (!ia && !ib && ic)
    ensures ta + tb + tc == whole
  {
  }

  /** Three distinct statuses split a list of tasks having only those
      statuses among their columns, each task exactly as many times as it
      occurs in the list. */
  lemma {:induction false} ThreeColumnsPartition(tasks: seq<Task>, a: string, b: string, c: string)
    requires a != b && b != c && a != c
    requires forall i :: 0 <= i < |tasks| ==> tasks[i].status == a || tasks[i].status == b || tasks[i].status == c
    ensures multiset(Column(tasks, a)) + multiset(Column(tasks, b)) + multiset(Column(tasks, c)) == multiset(tasks)
    decreases |tasks|
  {
    if |tasks| > 0 {
      var front := tasks[..|tasks| - 1];
      var last := tasks[|tasks| - 1];
      ThreeColumnsPartition(front, a, b, c);
      ColumnBagSnoc(tasks, a);
      ColumnBagSnoc(tasks, b);
      ColumnBagSnoc(tasks, c);
      assert multiset(tasks) == multiset(front) + multiset{last} by {
        assert tasks == front + [last];
      }
      BagStep(multiset(Column(front, a)), multiset(Column(front, b)), multiset(Column(front, c)),
        multiset(Column(tasks, a)), multiset(Column(tasks, b)), multiset(Column(tasks, c)),
        multiset(front), multiset(tasks), last, last.status == a, last.status == b, last.status == c);
    }
  }

  /** The three board columns split the tasks with a known status among
      them. */
  lemma ColumnsPartition(tasks: seq<Task>)
    requires forall i :: 0 <= i < |tasks| ==> tasks[i].status in Statuses
    ensures multiset(Column(tasks, Statuses[0])) + multiset(Column(tasks, Statuses[1])) + multiset(Column(tasks, Statuses[2])) ==
      multiset(tasks)
  {
    ThreeColumnsPartition(tasks, Statuses[0], Statuses[1], Statuses[2]);
  }

  /** A task whose status is none of the three is shown in no column. */
  lemma UnknownStatusHidden(tasks: seq<Task>, t: Task)
    requires t.status !in Statuses
    ensures forall k :: 0 <= k < |Statuses| ==> t !in Column(tasks, Statuses[k])
  {
    ColumnExact(tasks, Statuses[0]);
    ColumnExact(tasks, Statuses[1]);
    ColumnExact(tasks, Statuses[2]);
  }

  /** `status.replace('_', ' ')`: the first underscore becomes a space. */
  function ReplaceFirst(s: string, from: char, to: char): (r: string)
    ensures |r| == |s|
    decreases |s|
  {
    if |s| == 0 then ""
    else if s[0] == from then [to] + s[1..]
    else [s[0]] + ReplaceFirst(s[1..], from, to)
  }

  /** Text without the character is left as it is. */
  lemma {:induction false} ReplaceFirstAbsent(s: string, from: char, to: char)
    requires from !in s
    ensures ReplaceFirst(s, from, to) == s
    decreases |s|
  {
    if |s| > 0 {
      ReplaceFirstAbsent(s[1..], from, to);
      assert s == [s[0]] + s[1..];
    }
  }

  /** Only the first occurrence is replaced; what follows it is kept, later
      occurrences included. */
  lemma {:induction false} ReplaceFirstAt(a: string, b: string, from: char, to: char)
    requires from !in a
    ensures ReplaceFirst(a + [from] + b, from, to) == a + [to] + b
    decreases |a|
  {
    var s := a + [from] + b;
    if |a| == 0 {
      assert s == [from] + b;
      assert s[1..] == b;
    } else {
      assert s[0] == a[0];
      assert s[1..] == a[1..] + [from] + b;
      ReplaceFirstAt(a[1..], b, from, to);
      assert a + [to] + b == [a[0]] + (a[1..] + [to] + b);
    }
  }

  /** The column headings. */
  lemma Headings()
    ensures ReplaceFirst(Statuses[0], '_', ' ') == "TODO"
    ensures ReplaceFirst(Statuses[1], '_', ' ') == "IN PROGRESS"
    ensures ReplaceFirst(Statuses[2], '_', ' ') == "DONE"
  {
    HeadingWithoutUnderscore("TODO");
    HeadingWithoutUnderscore("DONE");
    HeadingInProgress();
  }

  lemma HeadingWithoutUnderscore(status: string)
    requires status == "TODO" || status == "DONE"
    ensures ReplaceFirst(status, '_', ' ') == status
  {
    assert '_' !in status;
    ReplaceFirstAbsent(status, '_', ' ');
  }

  lemma HeadingInProgress()
    ensures ReplaceFirst("IN_PROGRESS", '_', ' ') == "IN PROGRESS"
  {
    assert "IN_PROGRESS" == "IN" + ['_'] + "PROGRESS";
    ReplaceFirstAt("IN", "PROGRESS", '_', ' ');
    assert "IN" + [' '] + "PROGRESS" == "IN PROGRESS";
  }

  // ---------------------------------------------------------------------------
  // The local assignee edit (TaskBoard.tsx:187-190)

  /** The option values of the assignee select: "" for Unassigned, else the
      member id as React prints a number. */
  function OptionValue(choice: Option<int>): string {
    match choice
    case None => ""
    case Some(id) => Decimal(id)
  }

  /** `e.target.value ? Number(e.target.value) : null`, with `Number` read as
      `parseInt`, which agrees with it on the values the options carry. */
  function SelectedAssignee(value: string): Option<int> {
    if value == "" then None else ParseInt(value)
  }

  /** The handler reads back the choice the option stood for. */
  lemma SelectedAssigneeOfOption(choice: Option<int>)
    ensures SelectedAssignee(OptionValue(choice)) == choice
  {
    if choice.Some? {
      ParseIntOfDecimal(choice.value, "");
      assert Decimal(choice.value) + "" == Decimal(choice.value);
    }
  }

  /** `tasks.map(t => t.id === taskId ? { ...t, assigned_to: val } : t)` */
  function AssignLocally(tasks: seq<Task>, taskId: int, val: Option<int>): (r: seq<Task>)
  {
    seq(|tasks|, i requires 0 <= i < |tasks| => if tasks[i].id == taskId then tasks[i].(assigned_to := val) else tasks[i])
  }

  /** The edit touches only the assignee, and only of the tasks with the
      edited id; list order and every other task are kept, and repeating the
      edit changes nothing more. */
  lemma AssignChangesOnlyAssignee(tasks: seq<Task>, taskId: int, val: Option<int>)
    ensures |AssignLocally(tasks, taskId, val)| == |tasks|
    ensures forall i :: 0 <= i < |tasks| ==>
      && AssignLocally(tasks, taskId, val)[i].(assigned_to := tasks[i].assigned_to) == tasks[i]
      && (tasks[i].id != taskId ==> AssignLocally(tasks, taskId, val)[i] == tasks[i])
      && (tasks[i].id == taskId ==> AssignLocally(tasks, taskId, val)[i].assigned_to == val)
    ensures AssignLocally(AssignLocally(tasks, taskId, val), taskId, val) == AssignLocally(tasks, taskId, val)
  {
  }

  /** Editing the assignee moves no task between columns: each column after
      the edit is the column before it, edited. */
  lemma {:induction false} AssignKeepsColumns(tasks: seq<Task>, taskId: int, val: Option<int>, status: string)
    ensures Column(AssignLocally(tasks, taskId, val), status) == AssignLocally(Column(tasks, status), taskId, val)
    decreases |tasks|
  {
    var keep := (t: Task) => HasStatus(t, status);
    var r := AssignLocally(tasks, taskId, val);
    if |tasks| > 0 {
      var front := tasks[..|tasks| - 1];
      var last := tasks[|tasks| - 1];
      AssignKeepsColumns(front, taskId, val, status);
      assert r[..|r| - 1] == AssignLocally(front, taskId, val);
      var lastR := r[|r| - 1];
      assert keep(lastR) == keep(last);
      var colFront := Filter(front, keep);
      var tailCol := if keep(last) then [last] else [];
      assert Filter(tasks, keep) == colFront + tailCol;
      assert AssignLocally(colFront + tailCol, taskId, val) == AssignLocally(colFront, taskId, val) + AssignLocally(tailCol, taskId, val);
    } else {
      assert r == [];
    }
  }
}
