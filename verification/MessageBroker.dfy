/** The ring buffer that refuses to overwrite, and the numbered messages the broker keeps in it. */
module MessageBroker {
  import opened Common

  // ---------- the ring buffer ----------

  class RingBuffer<T> {
    var buffer: array<Option<T>>
    var head: nat
    var tail: nat
    var count: nat
    const capacity: nat

    /** The index `i` places behind the head. */
    function Slot(i: nat): (k: nat)
      reads this
      requires head < capacity && i <= capacity
      ensures k < capacity
    {
      if head + i < capacity then head + i else head + i - capacity
    }

    ghost predicate Valid()
      reads this, buffer
    {
      && buffer.Length == capacity && count <= capacity
      && (capacity == 0 ==> head == 0 && tail == 0)
      && (capacity > 0 ==>
            && head < capacity && tail == Slot(count)
            && forall i :: 0 <= i < count ==> buffer[Slot(i)].Some?)
    }

    static lemma {:induction false} NextIndex(i: nat, capacity: nat)
      requires i < capacity
      ensures (i + 1) % capacity == if i + 1 == capacity then 0 else i + 1
    {
    }

    ghost function Contents(): (s: seq<T>)
      reads this, buffer
      requires Valid()
      ensures |s| == count
    {
      seq(count, i requires 0 <= i < count reads this, buffer requires Valid() => buffer[Slot(i)].value)
    }

    constructor (capacity: nat)
      ensures Valid() && Contents() == [] && this.capacity == capacity && fresh(buffer)
    {
      this.capacity := capacity;
      buffer := new Option<T>[capacity](_ => None);
      head, tail, count := 0, 0, 0;
    }

    /** A full buffer refuses the item. */
    method Push(item: T) returns (pushed: bool)
      requires Valid()
      modifies this, buffer
      ensures Valid() && buffer == old(buffer)
      ensures pushed <==> |old(Contents())| < capacity
      ensures Contents() == if pushed then old(Contents()) + [item] else old(Contents())
    {
      if count == capacity {
        return false;
      }
      NextIndex(tail, capacity);
      buffer[tail] := Some(item);
      tail := (tail + 1) % capacity;
      count := count + 1;
      forall i | 0 <= i < count ensures buffer[Slot(i)].Some? {
        assert i < old(count) ==> old(buffer[Slot(i)]).Some?;
      }
      return true;
    }

    method Pop() returns (item: Option<T>)
      requires Valid()
      modifies this, buffer
      ensures Valid() && buffer == old(buffer)
      ensures old(Contents()) == [] ==> item == None && Contents() == []
      ensures old(Contents()) != [] ==> item == Some(old(Contents())[0]) && Contents() == old(Contents())[1..]
    {
      if count == 0 {
        return None;
      }
      ghost var before := Contents();
      assert before[0] == buffer[Slot(0)].value;
      NextIndex(head, capacity);
      item := buffer[head];
      buffer[head] := None;
      head := (head + 1) % capacity;
      count := count - 1;
      forall i | 0 <= i < count
        ensures Slot(i) == old(Slot(i + 1)) && buffer[Slot(i)].Some? && buffer[Slot(i)] == old(buffer[Slot(i + 1)])
      {
        assert old(buffer[Slot(i + 1)]).Some?;
      }
    }

    method Peek() returns (item: Option<T>)
      requires Valid()
      ensures item == if Contents() == [] then None else Some(Contents()[0])
    {
      if count == 0 {
        return None;
      }
      assert Contents()[0] == buffer[Slot(0)].value;
      item := buffer[head];
    }

    method Clear()
      requires Valid()
      modifies this
      ensures Valid() && fresh(buffer) && Contents() == []
    {
      buffer := new Option<T>[capacity](_ => None);
      head, tail, count := 0, 0, 0;
    }

    method ToArray() returns (result: seq<T>)
      requires Valid()
      ensures result == Contents()
    {
      result := [];
      var idx := head;
      for i := 0 to count
        invariant result == Contents()[..i]
        invariant capacity > 0 && i < capacity ==> idx == Slot(i)
      {
        assert Contents()[i] == buffer[Slot(i)].value;
        NextIndex(idx, capacity);
        result := result + [buffer[idx].value];
        idx := (idx + 1) % capacity;
      }
    }
  }

  // ---------- messages ----------

  datatype Message = Message(channel: string, payload: string, sequence: nat)

  datatype Post = Post(channel: string, payload: string)

  function CountOn(posts: seq<Post>, channel: string): nat {
    if posts == [] then 0
    else CountOn(posts[..|posts| - 1], channel) + if posts[|posts| - 1].channel == channel then 1 else 0
  }

  /** Every published message, numbered per channel. */
  function Stamped(posts: seq<Post>): (r: seq<Message>)
    ensures |r| == |posts|
  {
    if posts == [] then []
    else
      var init, last := posts[..|posts| - 1], posts[|posts| - 1];
      Stamped(init) + [Message(last.channel, last.payload, CountOn(init, last.channel) + 1)]
  }

  function OnChannel(messages: seq<Message>, channel: string): (r: seq<Message>)
    ensures |r| <= |messages|
    ensures forall i :: 0 <= i < |r| ==> r[i].channel == channel
  {
    if messages == [] then []
    else OnChannel(messages[..|messages| - 1], channel)
         + if messages[|messages| - 1].channel == channel then [messages[|messages| - 1]] else []
  }

  /** `slice(-count)`; a count of 0 therefore selects everything. */
  function SliceLast<T>(s: seq<T>, count: int): seq<T> {
    if count > 0 then (if count >= |s| then s else s[|s| - count..])
    else if -count >= |s| then [] else s[-count..]
  }

  function Recent(messages: seq<Message>, channel: string, count: int): seq<Message> {
    SliceLast(OnChannel(messages, channel), count)
  }

  /** What the buffer holds after the posts: the first `capacity` of them, and none after that. */
  function Held(posts: seq<Post>, capacity: nat): seq<Message> {
    Front(Stamped(posts), capacity)
  }

  function Front(messages: seq<Message>, n: nat): seq<Message> {
    if |messages| <= n then messages else messages[..n]
  }

  lemma {:induction false} StampedPrefix(posts: seq<Post>, n: nat)
    requires n <= |posts|
    ensures Stamped(posts)[..n] == Stamped(posts[..n])
  {
    if n == |posts| {
      assert posts[..n] == posts;
    } else {
      StampedPrefix(posts[..|posts| - 1], n);
      assert posts[..|posts| - 1][..n] == posts[..n];
    }
  }

  /** A channel's messages carry 1, 2, ..., k without gaps. */
  lemma {:induction false} StampedGapless(posts: seq<Post>, channel: string)
    ensures |OnChannel(Stamped(posts), channel)| == CountOn(posts, channel)
    ensures forall i :: 0 <= i < CountOn(posts, channel) ==> OnChannel(Stamped(posts), channel)[i].sequence == i + 1
  {
    if posts != [] {
      StampedGapless(posts[..|posts| - 1], channel);
    }
  }

  /** The number of posts that found room. */
  function Room(posts: seq<Post>, capacity: nat): (n: nat)
    ensures n <= |posts|
  {
    if |posts| <= capacity then |posts| else capacity
  }

  lemma {:induction false} HeldIsStamped(posts: seq<Post>, capacity: nat)
    ensures Held(posts, capacity) == Stamped(posts[..Room(posts, capacity)])
  {
    StampedPrefix(posts, Room(posts, capacity));
    assert posts[..|posts|] == posts;
  }

  lemma {:induction false} SliceConsecutive(messages: seq<Message>, count: int)
    requires forall i :: 0 <= i < |messages| ==> messages[i].sequence == i + 1
    ensures var r := SliceLast(messages, count);
            |r| <= |messages| && forall i :: 0 <= i < |r| ==> r[i].sequence == |messages| - |r| + 1 + i
  {
  }

  /** The buffered messages of a channel, and so any answer to a request for recent ones,
      are a consecutive run of sequence numbers ending at the last buffered one. */
  lemma {:induction false} RecentIsConsecutive(posts: seq<Post>, capacity: nat, channel: string, count: int)
    ensures var last := CountOn(posts[..Room(posts, capacity)], channel);
            var recent := Recent(Held(posts, capacity), channel, count);
            && |recent| <= last
            && forall i :: 0 <= i < |recent| ==> recent[i].sequence == last - |recent| + 1 + i
  {
    HeldIsStamped(posts, capacity);
    StampedGapless(posts[..Room(posts, capacity)], channel);
    SliceConsecutive(OnChannel(Held(posts, capacity), channel), count);
  }

  lemma {:induction false} SliceIsSuffix<T>(s: seq<T>, count: int)
    ensures var n := if count > 0 && count < |s| then count else if count >= 0 then |s|
                     else if -count < |s| then |s| + count else 0;
            SliceLast(s, count) == s[|s| - n..]
  {
  }

  lemma {:induction false} OnChannelIsFilter(messages: seq<Message>, channel: string)
    ensures OnChannel(messages, channel) == Filter((m: Message) => m.channel == channel, messages)
  {
    var keep := (m: Message) => m.channel == channel;
    if messages != [] {
      OnChannelIsFilter(messages[..|messages| - 1], channel);
      FilterSnoc(keep, messages[..|messages| - 1], messages[|messages| - 1]);
      assert messages[..|messages| - 1] + [messages[|messages| - 1]] == messages;
    }
  }

  lemma {:induction false} FilterSnoc(keep: Message -> bool, s: seq<Message>, m: Message)
    ensures Filter(keep, s + [m]) == Filter(keep, s) + if keep(m) then [m] else []
  {
    if s == [] {
      assert [] + [m] == [m] && [m][1..] == [];
    } else {
      assert (s + [m])[1..] == s[1..] + [m];
      FilterSnoc(keep, s[1..], m);
    }
  }

  /** A request for recent messages returns the end of the channel's buffered messages: as many as asked for if
      there are that many, otherwise all; for 0 all, and for a negative count all but the first so many. */
  lemma {:induction false} RecentLength(messages: seq<Message>, channel: string, count: int)
    ensures var all := Filter((m: Message) => m.channel == channel, messages);
            var recent := Recent(messages, channel, count);
            && |recent| == (if 0 < count < |all| then count else if count >= 0 then |all|
                            else if -count < |all| then |all| + count else 0)
            && recent == all[|all| - |recent|..]
  {
    OnChannelIsFilter(messages, channel);
    SliceIsSuffix(OnChannel(messages, channel), count);
  }

  /** The i-th message published is the i-th post, numbered on its channel. */
  lemma {:induction false} StampedPosts(posts: seq<Post>, i: nat)
    requires i < |posts|
    ensures Stamped(posts)[i] == Message(posts[i].channel, posts[i].payload, CountOn(posts[..i + 1], posts[i].channel))
  {
    StampedPrefix(posts, i + 1);
    assert posts[..i + 1][..i] == posts[..i];
    assert Stamped(posts)[i] == Stamped(posts)[..i + 1][i];
  }

  lemma {:induction false} CountGrows(posts: seq<Post>, n: nat, channel: string)
    requires n <= |posts|
    ensures CountOn(posts[..n], channel) <= CountOn(posts, channel)
    ensures CountOn(posts[..n], channel) == CountOn(posts, channel) <==>
            forall i :: n <= i < |posts| ==> posts[i].channel != channel
  {
    if n == |posts| {
      assert posts[..n] == posts;
    } else {
      CountGrows(posts[..|posts| - 1], n, channel);
      assert posts[..|posts| - 1][..n] == posts[..n];
    }
  }

  /** "Recent" messages are the latest ones exactly while nothing was published on the channel
      after the buffer filled up. */
  lemma {:induction false} RecentIsLatestIff(posts: seq<Post>, capacity: nat, channel: string)
    requires CountOn(posts, channel) > 0
    ensures var recent := Recent(Held(posts, capacity), channel, 1);
            (recent != [] && recent[0].sequence == CountOn(posts, channel))
            <==> forall i :: capacity <= i < |posts| ==> posts[i].channel != channel
  {
    HeldIsStamped(posts, capacity);
    StampedGapless(posts[..Room(posts, capacity)], channel);
    CountGrows(posts, Room(posts, capacity), channel);
  }

  lemma {:induction false} PostAdds(posts: seq<Post>, p: Post)
    ensures Stamped(posts + [p]) == Stamped(posts) + [Message(p.channel, p.payload, CountOn(posts, p.channel) + 1)]
    ensures forall c :: CountOn(posts + [p], c) == CountOn(posts, c) + if c == p.channel then 1 else 0
  {
    assert (posts + [p])[..|posts|] == posts;
  }

  /** The buffer takes the next message while it has room and never changes afterwards. */
  lemma {:induction false} PostHeld(posts: seq<Post>, p: Post, capacity: nat)
    ensures var message := Message(p.channel, p.payload, CountOn(posts, p.channel) + 1);
            Held(posts + [p], capacity) ==
            if |posts| < capacity then Held(posts, capacity) + [message] else Held(posts, capacity)
    ensures |Held(posts, capacity)| < capacity <==> |posts| < capacity
  {
    PostAdds(posts, p);
    FrontAppend(Stamped(posts), Message(p.channel, p.payload, CountOn(posts, p.channel) + 1), capacity);
  }

  lemma {:induction false} FrontAppend(messages: seq<Message>, m: Message, n: nat)
    ensures Front(messages + [m], n) == if |messages| < n then Front(messages, n) + [m] else Front(messages, n)
  {
  }

  /** A counter holds the number of posts on its channel. */
  ghost predicate Counting(counters: map<string, nat>, posts: seq<Post>) {
    forall channel :: CountOn(posts, channel) == if channel in counters then counters[channel] else 0
  }

  lemma {:induction false} PostCounts(counters: map<string, nat>, posts: seq<Post>, p: Post)
    requires Counting(counters, posts)
    ensures Counting(counters[p.channel := CountOn(posts, p.channel) + 1], posts + [p])
  {
    PostAdds(posts, p);
  }

  // ---------- the broker ----------

  class MessageBroker {
    var sequenceCounters: map<string, nat>
    const messageBuffer: RingBuffer<Message>
    ghost var posts: seq<Post>

    ghost predicate Valid()
      reads this, messageBuffer, messageBuffer.buffer
    {
      && messageBuffer.Valid()
      && messageBuffer.Contents() == Held(posts, messageBuffer.capacity)
      && Counting(sequenceCounters, posts)
    }

    constructor (bufferSize: nat)
      ensures Valid() && posts == [] && messageBuffer.capacity == bufferSize
      ensures fresh(messageBuffer) && fresh(messageBuffer.buffer)
    {
      sequenceCounters, posts := map[], [];
      messageBuffer := new RingBuffer<Message>(bufferSize);
    }

    method NextSequence(channel: string) returns (next: nat)
      modifies this`sequenceCounters
      ensures next == (if channel in old(sequenceCounters) then old(sequenceCounters)[channel] else 0) + 1
      ensures sequenceCounters == old(sequenceCounters)[channel := next]
    {
      var current := if channel in sequenceCounters then sequenceCounters[channel] else 0;
      next := current + 1;
      sequenceCounters := sequenceCounters[channel := next];
    }

    /** A full buffer drops the message; nobody is told. */
    method Buffer(message: Message)
      requires messageBuffer.Valid() && messageBuffer.Contents() == Held(posts, messageBuffer.capacity)
      requires message.sequence == CountOn(posts, message.channel) + 1
      modifies this`posts, messageBuffer, messageBuffer.buffer
      ensures messageBuffer.Valid() && messageBuffer.buffer == old(messageBuffer.buffer)
      ensures posts == old(posts) + [Post(message.channel, message.payload)]
      ensures messageBuffer.Contents() == Held(posts, messageBuffer.capacity)
    {
      PostHeld(posts, Post(message.channel, message.payload), messageBuffer.capacity);
      var _ := messageBuffer.Push(message);
      posts := posts + [Post(message.channel, message.payload)];
    }

    /** The numbering and buffering part of publishing. */
    method Publish(channel: string, payload: string) returns (message: Message)
      requires Valid()
      modifies this, messageBuffer, messageBuffer.buffer
      ensures Valid() && posts == old(posts) + [Post(channel, payload)]
      ensures message == Stamped(posts)[|old(posts)|]
      ensures message.channel == channel && message.payload == payload && message.sequence == CountOn(posts, channel)
    {
      PostCounts(sequenceCounters, posts, Post(channel, payload));
      PostAdds(posts, Post(channel, payload));
      var seqNo := NextSequence(channel);
      message := Message(channel, payload, seqNo);
      Buffer(message);
    }

    method GetRecentMessages(channel: string, count: int) returns (recent: seq<Message>)
      requires Valid()
      ensures recent == Recent(Held(posts, messageBuffer.capacity), channel, count)
      ensures 0 < count <= |OnChannel(messageBuffer.Contents(), channel)| ==> |recent| == count
    {
      var all := messageBuffer.ToArray();
      recent := SliceLast(OnChannel(all, channel), count);
    }
  }
}
