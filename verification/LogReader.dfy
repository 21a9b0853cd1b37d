/**
 internal/log/reader.go: reading a piece of a log that its run is still writing, and what the
 pieces amount to for a client that asks next for offset + size.
 */
module LogReader {
  import opened Model
  import opened Utf8

  function Min(a: int, b: int): int {
    if a <= b then a else b
  }

  /** Where ReadContent starts, in a file of the given size. */
  function StartOf(size: nat, offset: int, tail: int): (start: nat)
    ensures tail > 0 ==> start + Min(tail, size) == size
  {
    if tail > 0 then size - Min(tail, size)
    else if offset < 0 then 0
    else offset
  }

  /** Without a tail, where a read starts does not depend on the file's size. */
  lemma StartSame(size: nat, later: nat, offset: int)
    ensures StartOf(size, offset, 0) == StartOf(later, offset, 0)
  {}

  /** The bytes a read at start finds: all that follow, or limit of them. */
  function Piece(content: Bytes, start: nat, limit: int): (piece: Bytes)
    ensures limit > 0 ==> |piece| <= limit
    ensures limit <= 0 || |piece| < limit ==> start + |piece| >= |content|
    ensures start >= |content| ==> piece == []
    ensures start < |content| ==> start + |piece| <= |content| && piece == content[start..start + |piece|]
  {
    if start >= |content| then []
    else if limit > 0 then content[start..Min(start + limit, |content|)]
    else content[start..]
  }

  /** The bytes between two offsets, where a negative one counts as the beginning. */
  function Between(content: Bytes, from: int, next: int): Bytes {
    var lo, hi := StartOf(|content|, from, 0), StartOf(|content|, next, 0);
    if lo <= hi <= |content| then content[lo..hi] else []
  }

  /** An offset the polling client can reach from its first one. */
  predicate Reached(content: Bytes, from: int, next: int) {
    from <= next && (next <= |content| || next == from)
  }

  /** What lies between two offsets the client has passed stays the same while the file grows. */
  lemma GrowthKeeps(content: Bytes, more: Bytes, from: int, next: int)
    requires Reached(content, from, next)
    ensures Reached(content + more, from, next) && Between(content + more, from, next) == Between(content, from, next)
  {
    var lo, hi := StartOf(|content|, from, 0), StartOf(|content|, next, 0);
    if hi <= |content| {
      assert (content + more)[lo..hi] == content[lo..hi];
    }
  }

  /** The next piece continues what the client has shown: no byte is lost and none comes twice. */
  lemma PieceExtends(content: Bytes, from: int, next: int, limit: int)
    requires Reached(content, from, next)
    ensures var start := StartOf(|content|, next, 0);
            var piece := Piece(content, start, limit);
            && Reached(content, from, start + |piece|)
            && Between(content, from, next) + piece == Between(content, from, start + |piece|)
            && (limit <= 0 && from <= |content| ==> start + |piece| == |content|)
  {
    var lo, start := StartOf(|content|, from, 0), StartOf(|content|, next, 0);
    var piece := Piece(content, start, limit);
    if start < |content| {
      assert content[lo..start] + content[start..start + |piece|] == content[lo..start + |piece|];
    }
  }

  /** A client that began at one offset has been sent these pieces up to another. */
  predicate Sent(content: Bytes, from: int, next: int, pieces: seq<Bytes>) {
    Reached(content, from, next) && Flatten(pieces) == Between(content, from, next)
  }

  lemma SentStays(content: Bytes, more: Bytes, later: Bytes, from: int, next: int, pieces: seq<Bytes>)
    requires Sent(content, from, next, pieces) && later == content + more
    ensures content <= later && Sent(later, from, next, pieces)
  {
    GrowthKeeps(content, more, from, next);
  }

  /** An answer that the log as it is now gives from the client's offset on. */
  lemma NextPiece(content: Bytes, data: Bytes, start: nat, from: int, next: int, limit: int, pieces: seq<Bytes>)
    requires Sent(content, from, next, pieces)
    requires start == StartOf(|content|, next, 0) && data == Piece(content, start, limit)
    ensures Sent(content, from, start + |data|, pieces + [data])
    ensures limit <= 0 && from <= |content| ==> start + |data| == |content|
  {
    PieceExtends(content, from, next, limit);
    OnePieceMore(pieces, data);
  }

  /** An answered poll: some was appended before it, and more in its time. */
  lemma AnsweredPoll(content: Bytes, some: Bytes, mid: Bytes, more: Bytes, later: Bytes, data: Bytes, start: nat,
                     from: int, next: int, limit: int, pieces: seq<Bytes>)
    requires Sent(content, from, next, pieces) && mid == content + some && later == mid + more
    requires start == StartOf(|mid|, next, 0) && data == Piece(later, start, limit)
    ensures content <= later && Sent(later, from, start + |data|, pieces + [data])
    ensures limit <= 0 && from <= |later| ==> start + |data| == |later|
  {
    SentStays(content, some, mid, from, next, pieces);
    SentStays(mid, more, later, from, next, pieces);
    StartSame(|mid|, |later|, next);
    NextPiece(later, data, start, from, next, limit, pieces);
  }

  /** What a read has gathered from start is what the file holds there. */
  predicate Gathered(content: Bytes, start: nat, data: Bytes) {
    data == [] || (start + |data| <= |content| && data == content[start..start + |data|])
  }

  lemma GatherMore(content: Bytes, more: Bytes, start: nat, data: Bytes, bytes: Bytes)
    requires Gathered(content, start, data)
    requires var u := content + more; var at := start + |data|;
             bytes == [] || (at + |bytes| <= |u| && bytes == u[at..at + |bytes|])
    ensures Gathered(content + more, start, data + bytes)
  {
    if data + bytes != [] {
      var u := content + more;
      assert data == u[start..start + |data|];
      assert u[start..start + |data + bytes|] == u[start..start + |data|] + u[start + |data|..start + |data + bytes|];
    }
  }

  lemma GatheredAll(content: Bytes, start: nat, limit: int, data: Bytes)
    requires Gathered(content, start, data) && (limit > 0 ==> |data| <= limit)
    requires start + |data| >= |content| || 0 < limit == |data|
    ensures data == Piece(content, start, limit)
  {}

  lemma FlattenNext(arrivals: seq<Bytes>, calls: nat)
    requires calls < |arrivals|
    ensures Flatten(arrivals[..calls + 1]) == Flatten(arrivals[..calls]) + arrivals[calls]
  {
    assert arrivals[..calls + 1][..calls] == arrivals[..calls];
  }

  // ---------- The reader ----------

  /** One poll: what was appended since the last one, whether the request fails, and how its read goes. */
  datatype Poll = Poll(before: Bytes, fails: bool, limit: int, arrivals: seq<Bytes>, choices: nat -> nat)

  /** The log of a run: the executor only appends to it. */
  class LogFile {
    var content: Bytes

    constructor ()
      ensures content == []
    {
      content := [];
    }

    method Append(bytes: Bytes)
      modifies this
      ensures content == old(content) + bytes
    {
      content := content + bytes;
    }

    /** One read call: at most room bytes, and at least one unless none is there; the system chooses how many. */
    method Read(position: nat, room: nat, choice: nat) returns (bytes: Bytes)
      requires room > 0
      ensures |bytes| <= room
      ensures bytes == [] <==> position >= |content|
      ensures position < |content| ==> position + |bytes| <= |content| && bytes == content[position..position + |bytes|]
    {
      if position >= |content| {
        return [];
      }
      var most := Min(room, |content| - position);
      var n := if 0 < choice < most then choice else most;
      return content[position..position + n];
    }

    /** A read call that continues data, after the executor's next append if there is one. */
    method NextRead(start: nat, data: Bytes, room: nat, arrivals: seq<Bytes>, calls: nat, choice: nat)
      returns (bytes: Bytes, calls': nat)
      requires room > 0 && Gathered(content, start, data) && calls <= |arrivals|
      modifies this
      ensures |bytes| <= room && Gathered(content, start, data + bytes)
      ensures bytes == [] <==> start + |data| >= |content|
      ensures calls' == if calls < |arrivals| then calls + 1 else calls
      ensures content == old(content) + if calls < |arrivals| then arrivals[calls] else []
    {
      ghost var more: Bytes := [];
      calls' := calls;
      if calls < |arrivals| {
        more := arrivals[calls];
        Append(arrivals[calls]);
        calls' := calls + 1;
      }
      bytes := Read(start + |data|, room, choice);
      assert content == old(content) + more;
      GatherMore(old(content), more, start, data, bytes);
    }

    /**
     ReadContent, with what the executor appends before each of its read calls and how much each
     call brings.  The answer is the one a single read of the file as it is at the end would give.
     */
    method ReadContent(offset: int, limit: int, tail: int, arrivals: seq<Bytes>, choices: nat -> nat)
      returns (data: Bytes, start: nat, size: nat, calls: nat)
      modifies this
      ensures calls <= |arrivals| && content == old(content) + Flatten(arrivals[..calls])
      ensures start == StartOf(|old(content)|, offset, tail)
      ensures data == Piece(content, start, limit) && size == |data|
    {
      var at := offset;
      if tail > 0 {
        at := |content| - if tail > |content| then |content| else tail;
      }
      if at < 0 {
        at := 0;
      }
      start := at;
      data, calls := Gather(start, limit, arrivals, choices);
      GatheredAll(content, start, limit, data);
      size := |data|;
    }

    /** io.ReadFull with a buffer of limit bytes, or io.ReadAll. */
    method Gather(start: nat, limit: int, arrivals: seq<Bytes>, choices: nat -> nat) returns (data: Bytes, calls: nat)
      modifies this
      ensures calls <= |arrivals| && content == old(content) + Flatten(arrivals[..calls])
      ensures Gathered(content, start, data) && (limit > 0 ==> |data| <= limit)
      ensures start + |data| >= |content| || 0 < limit == |data|
    {
      ghost var was := content;
      data, calls := [], 0;
      var ended := false;
      while !ended && (limit <= 0 || |data| < limit)
        invariant calls <= |arrivals| && content == was + Flatten(arrivals[..calls])
        invariant Gathered(content, start, data) && (limit > 0 ==> |data| <= limit)
        invariant ended ==> start + |data| >= |content|
        decreases !ended, |arrivals| - calls, |content| - start - |data|
      {
        if calls < |arrivals| {
          FlattenNext(arrivals, calls);
        }
        var room := if limit > 0 then limit - |data| else 512;
        var bytes;
        bytes, calls := NextRead(start, data, room, arrivals, calls, choices(calls));
        ended := bytes == [];
        data := data + bytes;
      }
    }

    /** A request and its answer. */
    method Ask(offset: int, poll: Poll) returns (data: Bytes, start: nat, size: nat, ghost more: Bytes)
      modifies this
      ensures content == old(content) + poll.before + more
      ensures start == StartOf(|old(content) + poll.before|, offset, 0)
      ensures data == Piece(content, start, poll.limit) && size == |data|
    {
      Append(poll.before);
      var calls;
      data, start, size, calls := ReadContent(offset, poll.limit, 0, poll.arrivals, poll.choices);
      more := Flatten(poll.arrivals[..calls]);
    }

    /** One poll of the client, whose offset is next: a failed one brings nothing and changes nothing. */
    method Refresh(ghost from: int, ghost pieces: seq<Bytes>, next: int, poll: Poll)
      returns (answer: Option<Bytes>, next': int)
      requires Sent(content, from, next, pieces)
      modifies this
      ensures old(content) <= content && (answer.None? <==> poll.fails)
      ensures Sent(content, from, next', if answer.Some? then pieces + [answer.value] else pieces)
      ensures poll.fails ==> next' == next
      ensures !poll.fails && poll.limit <= 0 && from <= |content| ==> next' == |content|
    {
      if poll.fails {
        SentStays(content, poll.before, content + poll.before, from, next, pieces);
        Append(poll.before);
        return None, next;
      }
      ghost var was := content;
      var data, start, size;
      ghost var more;
      data, start, size, more := Ask(next, poll);
      AnsweredPoll(was, poll.before, was + poll.before, more, content, data, start, from, next, poll.limit, pieces);
      return Some(data), start + size;
    }

    /**
     The polling client: it asks for what follows its offset, appends the answer's text to what it
     shows, and moves its offset to the answer's offset + size; a failed poll changes nothing.  The
     bytes it has been sent are exactly the file's from its first offset to its last; it shows their
     text exactly when no answer ended within a character, and a longer text otherwise.
     */
    method Follow(from: int, polls: seq<Poll>) returns (text: Bytes, ghost pieces: seq<Bytes>, next: int)
      modifies this
      ensures old(content) <= content
      ensures Reached(content, from, next) && Flatten(pieces) == Between(content, from, next)
      ensures text == Text(Between(content, from, next)) <==> CleanCuts(pieces)
      ensures |text| >= |Text(Between(content, from, next))|
      ensures polls != [] && !polls[|polls| - 1].fails && polls[|polls| - 1].limit <= 0 && from <= |content|
              ==> next == |content|
    {
      text, pieces, next := [], [], from;
      var i := 0;
      while i < |polls|
        invariant i <= |polls| && old(content) <= content
        invariant Sent(content, from, next, pieces) && text == Texts(pieces)
        invariant i > 0 && !polls[i - 1].fails && polls[i - 1].limit <= 0 && from <= |content| ==> next == |content|
      {
        var answer;
        answer, next := Refresh(from, pieces, next, polls[i]);
        if answer.Some? {
          OnePieceMore(pieces, answer.value);
          text, pieces := text + Text(answer.value), pieces + [answer.value];
        }
        i := i + 1;
      }
      TextsJoinIff(pieces);
    }

    /**
     The run page: it is rendered with the last bytes of the log and gives the script the offset at
     which these begin, not the one at which they end.  So once a poll has been answered, all that
     the page was rendered with has been sent, and is shown, a second time.
     */
    method RunPage(arrivals: seq<Bytes>, choices: nat -> nat, polls: seq<Poll>)
      returns (page: Bytes, start: nat, text: Bytes, ghost pieces: seq<Bytes>, next: int)
      modifies this
      ensures old(content) <= content && start + Min(8192, |old(content)|) == |old(content)|
      ensures start + |page| <= |content| && page == content[start..start + |page|] && old(content)[start..] <= page
      ensures Flatten(pieces) == Between(content, start, next)
      ensures text == Text(Between(content, start, next)) <==> CleanCuts(pieces)
      ensures polls != [] && !polls[|polls| - 1].fails && polls[|polls| - 1].limit <= 0
              ==> Flatten(pieces) == content[start..] && page <= Flatten(pieces)
    {
      var size, calls;
      ghost var was := content;
      page, start, size, calls := ReadContent(0, 0, PAGE_TAIL, arrivals, choices);
      ghost var rendered := content;
      assert was <= rendered && start <= |rendered|;
      assert was[start..] <= rendered[start..];
      text, pieces, next := Follow(start, polls);
      assert rendered[start..] <= content[start..];
    }
  }

  /** The tail the page asks for. */
  const PAGE_TAIL: nat := 8192
}
