/** The message queue seen from outside: a double-ended queue, and what its moves lose and keep in order. */
module MessageMoves {
  import opened Lists
  import opened MessageCells

  /** What a step does to the stored messages, and for whom. */
  datatype Move = ToBack(t: ThreadId, message: Message) | ToFront(t: ThreadId, message: Message)
                | FromFront(t: ThreadId, message: Message) | Cleared

  /** A message can only be taken from the front. */
  ghost function Apply(stored: seq<Message>, move: Option<Move>): Option<seq<Message>> {
    match move
    case None => Some(stored)
    case Some(ToBack(_, m)) => Some(stored + [m])
    case Some(ToFront(_, m)) => Some([m] + stored)
    case Some(FromFront(_, m)) => if stored != [] && stored[0] == m then Some(stored[1..]) else None
    case Some(Cleared) => Some([])
  }

  /** What the moves leave in a queue that was empty, if they can all be made. */
  ghost function Replay(moves: seq<Option<Move>>): Option<seq<Message>> {
    if moves == [] then Some([])
    else
      match Replay(moves[..|moves| - 1])
      case None => None
      case Some(stored) => Apply(stored, moves[|moves| - 1])
  }

  lemma ReplayMore(moves: seq<Option<Move>>, move: Option<Move>)
    ensures Replay(moves + [move]) ==
      match Replay(moves)
      case None => None
      case Some(stored) => Apply(stored, move)
  {
    assert (moves + [move])[..|moves|] == moves;
  }

  ghost function LinkedBy(move: Option<Move>): seq<Message> {
    match move
    case Some(ToBack(_, m)) => [m]
    case Some(ToFront(_, m)) => [m]
    case _ => []
  }

  ghost function ReceivedBy(move: Option<Move>): seq<Message> {
    match move
    case Some(FromFront(_, m)) => [m]
    case _ => []
  }

  ghost function Linked(moves: seq<Option<Move>>): seq<Message> {
    if moves == [] then [] else Linked(moves[..|moves| - 1]) + LinkedBy(moves[|moves| - 1])
  }

  ghost function Received(moves: seq<Option<Move>>): seq<Message> {
    if moves == [] then [] else Received(moves[..|moves| - 1]) + ReceivedBy(moves[|moves| - 1])
  }

  lemma MoveKeeps(stored: seq<Message>, move: Option<Move>)
    requires Apply(stored, move).Some? && move != Some(Cleared)
    ensures multiset(stored) + multiset(LinkedBy(move)) ==
      multiset(ReceivedBy(move)) + multiset(Apply(stored, move).value)
  {
    var after := Apply(stored, move).value;
    if move.Some? && move.value.FromFront? {
      assert stored == [stored[0]] + after;
    } else if move.Some? && move.value.ToBack? {
      assert multiset(after) == multiset(stored) + multiset(LinkedBy(move));
    }
  }

  lemma MoveInOrder(stored: seq<Message>, move: Option<Move>)
    requires Apply(stored, move).Some? && (move.Some? ==> move.value.ToBack? || move.value.FromFront?)
    ensures stored + LinkedBy(move) == ReceivedBy(move) + Apply(stored, move).value
  {
  }

  lemma Balance(l: multiset<Message>, r: multiset<Message>, stored: multiset<Message>,
                l1: multiset<Message>, r1: multiset<Message>, after: multiset<Message>)
    requires l == r + stored && stored + l1 == r1 + after
    ensures l + l1 == r + r1 + after
  {
    assert r + stored + l1 == r + (stored + l1);
    assert r + (r1 + after) == r + r1 + after;
  }

  lemma InOrder(l: seq<Message>, r: seq<Message>, stored: seq<Message>,
                l1: seq<Message>, r1: seq<Message>, after: seq<Message>)
    requires l == r + stored && stored + l1 == r1 + after
    ensures l + l1 == r + r1 + after
  {
    assert r + stored + l1 == r + (stored + l1);
  }

  lemma Before(moves: seq<Option<Move>>)
    requires moves != [] && Replay(moves).Some?
    ensures var rest, last := moves[..|moves| - 1], moves[|moves| - 1];
      && Replay(rest).Some? && Apply(Replay(rest).value, last) == Replay(moves)
      && Linked(moves) == Linked(rest) + LinkedBy(last) && Received(moves) == Received(rest) + ReceivedBy(last)
      && last in moves && forall move :: move in rest ==> move in moves
  {
  }

  /** Without resets every message that was linked has been received once or is still there. */
  lemma {:induction false} NothingLost(moves: seq<Option<Move>>)
    requires Replay(moves).Some? && Some(Cleared) !in moves
    ensures multiset(Linked(moves)) == multiset(Received(moves)) + multiset(Replay(moves).value)
  {
    if moves != [] {
      var rest, last := moves[..|moves| - 1], moves[|moves| - 1];
      Before(moves);
      NothingLost(rest);
      MoveKeeps(Replay(rest).value, last);
      Balance(multiset(Linked(rest)), multiset(Received(rest)), multiset(Replay(rest).value),
              multiset(LinkedBy(last)), multiset(ReceivedBy(last)), multiset(Replay(moves).value));
      Sums(Linked(rest), LinkedBy(last));
      Sums(Received(rest), ReceivedBy(last));
    }
  }

  lemma Sums(a: seq<Message>, b: seq<Message>)
    ensures multiset(a + b) == multiset(a) + multiset(b)
  {
  }

  /** Without urgent sends too, messages are received in the order in which they were linked. */
  lemma {:induction false} FirstInFirstOut(moves: seq<Option<Move>>)
    requires Replay(moves).Some?
    requires forall move :: move in moves && move.Some? ==> move.value.ToBack? || move.value.FromFront?
    ensures Linked(moves) == Received(moves) + Replay(moves).value
  {
    if moves != [] {
      var rest, last := moves[..|moves| - 1], moves[|moves| - 1];
      Before(moves);
      FirstInFirstOut(rest);
      MoveInOrder(Replay(rest).value, last);
      InOrder(Linked(rest), Received(rest), Replay(rest).value, LinkedBy(last), ReceivedBy(last), Replay(moves).value);
    }
  }
}
