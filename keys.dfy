/**
 The key handling of the game loop: each key press either requests a new
 heading or is ignored, and a press that would turn the snake back onto
 itself is refused.
 */
module Keys {
  import opened Wrappers
  import opened Grid

  /** A key press; OtherKey stands for every key the game does not react to. */
  datatype Key = UpKey | DownKey | LeftKey | RightKey | OtherKey

  /** The heading an arrow key asks for. */
  function KeyHeading(k: Key): Dir
    requires k != OtherKey
  {
    match k
    case UpKey => Up
    case DownKey => Down
    case LeftKey => Left
    case RightKey => Right
  }

  /** A press that is taken: an arrow key that does not point backwards. */
  predicate Accepted(heading: Dir, k: Key)
  {
    k != OtherKey && KeyHeading(k) != Opposite(heading)
  }

  /**
   The pending heading after one press, with the current heading and the
   pending one before it: the chain of tests of the key handler, in its order.
   */
  function Press(heading: Dir, pending: Option<Dir>, k: Key): (r: Option<Dir>)
    ensures r == if Accepted(heading, k) then Some(KeyHeading(k)) else pending
  {
    if k == UpKey && heading != Down then Some(Up)
    else if k == DownKey && heading != Up then Some(Down)
    else if k == LeftKey && heading != Right then Some(Left)
    else if k == RightKey && heading != Left then Some(Right)
    else pending
  }

  /** The pending heading after the presses of one poll, handled first to last. */
  function Pending(heading: Dir, pending: Option<Dir>, keys: seq<Key>): Option<Dir>
  {
    if keys == [] then pending
    else Press(heading, Pending(heading, pending, keys[..|keys| - 1]), keys[|keys| - 1])
  }

  /** Presses that are all refused leave the pending heading as it was. */
  lemma {:induction false} PendingIgnoresRefused(heading: Dir, pending: Option<Dir>, keys: seq<Key>)
    requires forall i :: 0 <= i < |keys| ==> !Accepted(heading, keys[i])
    ensures Pending(heading, pending, keys) == pending
  {
    if keys != [] {
      PendingIgnoresRefused(heading, pending, keys[..|keys| - 1]);
    }
  }

  /** The last accepted press wins: the ones before it are overwritten, the refused ones after it change nothing. */
  lemma {:induction false} PendingLastAccepted(heading: Dir, pending: Option<Dir>, keys: seq<Key>, i: int)
    requires 0 <= i < |keys| && Accepted(heading, keys[i])
    requires forall j :: i < j < |keys| ==> !Accepted(heading, keys[j])
    ensures Pending(heading, pending, keys) == Some(KeyHeading(keys[i]))
  {
    if i < |keys| - 1 {
      PendingLastAccepted(heading, pending, keys[..|keys| - 1], i);
    }
  }

  /** After a poll the pending heading is the old one or the heading of some accepted press. */
  lemma {:induction false} PendingCases(heading: Dir, pending: Option<Dir>, keys: seq<Key>)
    ensures || Pending(heading, pending, keys) == pending
            || exists i :: 0 <= i < |keys| && Accepted(heading, keys[i])
                 && Pending(heading, pending, keys) == Some(KeyHeading(keys[i]))
  {
    if keys != [] {
      var front := keys[..|keys| - 1];
      PendingCases(heading, pending, front);
      if !Accepted(heading, keys[|keys| - 1]) && Pending(heading, pending, front) != pending {
        var i :| 0 <= i < |front| && Accepted(heading, front[i])
                 && Pending(heading, pending, front) == Some(KeyHeading(front[i]));
        assert keys[i] == front[i];
      }
    }
  }

  /** If the pending heading did not point backwards, no sequence of presses makes it do so. */
  lemma {:induction false} PendingNeverReverse(heading: Dir, pending: Option<Dir>, keys: seq<Key>)
    requires pending != Some(Opposite(heading))
    ensures Pending(heading, pending, keys) != Some(Opposite(heading))
  {
    if keys != [] {
      PendingNeverReverse(heading, pending, keys[..|keys| - 1]);
    }
  }

  /** The heading once the pending one, if any, has been applied. */
  function Applied(heading: Dir, pending: Option<Dir>): Dir
  {
    match pending
    case Some(d) => d
    case None => heading
  }

  /** The heading a tick moves in, from the heading before it and the presses of its poll. */
  function NextHeading(heading: Dir, keys: seq<Key>): (r: Dir)
  {
    Applied(heading, Pending(heading, None, keys))
  }

  /** A tick never turns the snake straight back. */
  lemma NextHeadingNotReverse(heading: Dir, keys: seq<Key>)
    ensures NextHeading(heading, keys) != Opposite(heading)
  {
    PendingNeverReverse(heading, None, keys);
  }

  /** Pressing the key of the opposite heading leaves the heading as it was. */
  lemma ReverseKeyIgnored(heading: Dir, k: Key)
    requires k != OtherKey && KeyHeading(k) == Opposite(heading)
    ensures NextHeading(heading, [k]) == heading
  {
    assert !Accepted(heading, k);
    PendingIgnoresRefused(heading, None, [k]);
  }
}
