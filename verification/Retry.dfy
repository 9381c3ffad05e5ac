/**
 * One RPC to Transmission: a session ID is obtained if none is held, the request is posted under
 * it, and transport failures and expired sessions are retried a bounded number of times.
 */
module Retry {
  datatype Body = Undecodable | Decoded(result: string)
  datatype Reply = TransportError | Status(code: int, session: string, body: Body)

  /** A post that was made: under which session ID, after how many seconds of sleep in all, and what came back. */
  datatype Post = Post(session: string, slept: nat, reply: Reply)

  const MAX_RETRIES := 3

  predicate Good(r: Reply) { r.Status? && r.code == 200 && r.body == Decoded("success") }

  predicate Expired(r: Reply) { r.Status? && r.code == 409 && r.session != "" }

  predicate Retryable(r: Reply) { r == TransportError || Expired(r) }

  /** A session request is answered by a session ID. */
  predicate Grants(r: Reply) { r.Status? && r.code in {409, 200} && r.session != "" }

  function Pow2(n: nat): nat { if n == 0 then 1 else 2 * Pow2(n - 1) }

  /**
   * The session ID held after posts were made under `initial`: the last one that an expired session was replaced
   * by.
   */
  function SessionAfter(initial: string, posts: seq<Post>): string {
    if posts == [] then initial
    else if Expired(posts[|posts| - 1].reply) then posts[|posts| - 1].reply.session
    else SessionAfter(initial, posts[..|posts| - 1])
  }

  /**
   * The sleep before the next attempt: only transport failures are waited for, each twice as long as it could have
   * been before.
   */
  function Slept(posts: seq<Post>): nat {
    if posts == [] then 0
    else Slept(posts[..|posts| - 1]) + if posts[|posts| - 1].reply == TransportError then Pow2(|posts| - 1) else 0
  }

  /** The reply to the post number `k`, after `offset` session requests. */
  function At(replies: nat -> Reply, offset: nat, k: nat): Reply { replies(offset + k) }

  /** Each post answered by the server's next reply, under the session held and after the sleep due at the time. */
  ghost predicate IsRun(posts: seq<Post>, initial: string, replies: nat -> Reply, offset: nat) {
    forall i :: 0 <= i < |posts| ==>
      posts[i] == Post(SessionAfter(initial, posts[..i]), Slept(posts[..i]), At(replies, offset, i))
  }

  ghost predicate AllRetryable(posts: seq<Post>, n: nat)
    requires n <= |posts|
  {
    forall i :: 0 <= i < n ==> Retryable(posts[i].reply)
  }

  /** The server's replies from `offset` on start with at most three retryable ones and then a good one. */
  ghost predicate Recovers(replies: nat -> Reply, offset: nat) {
    exists n: nat :: RecoversAfter(replies, offset, n)
  }

  ghost predicate RecoversAfter(replies: nat -> Reply, offset: nat, n: nat) {
    n <= MAX_RETRIES && Good(At(replies, offset, n)) && forall i :: 0 <= i < n ==> Retryable(At(replies, offset, i))
  }

  class Client {
    var sessionID: string

    constructor () ensures sessionID == "" { sessionID := ""; }

    method GetSessionID(reply: Reply) returns (ok: bool)
      modifies this
      ensures ok <==> Grants(reply)
      ensures ok <==> reply.Status? && (reply.code == 409 || reply.code == 200) && reply.session != ""
      ensures sessionID == if reply.Status? && reply.code in {409, 200} then reply.session else old(sessionID)
    {
      if reply == TransportError { return false; }
      if reply.code == 409 {
        sessionID := reply.session;
        return sessionID != "";
      }
      if reply.code == 200 {
        sessionID := reply.session;
        return sessionID != "";
      }
      ok := false;
    }

    /** The reply to one post: whether to try again, and if not whether it succeeded. */
    method Judge(reply: Reply, attempt: nat, slept: nat) returns (verdict: Verdict, slept': nat)
      modifies this
      ensures verdict == Again <==> Retryable(reply) && (reply == TransportError ==> attempt < MAX_RETRIES)
      ensures verdict == Succeeded <==> Good(reply)
      ensures sessionID == if reply.Status? && reply.code == 409 then reply.session else old(sessionID)
      ensures slept' == if reply == TransportError && attempt < MAX_RETRIES then slept + Pow2(attempt) else slept
    {
      slept' := slept;
      if reply == TransportError {
        if attempt < MAX_RETRIES {
          slept' := slept + Pow2(attempt);
          return Again, slept';
        }
        return Failed, slept';
      }
      if reply.code == 409 {
        sessionID := reply.session;
        return if sessionID == "" then Failed else Again, slept';
      }
      if reply.code != 200 || reply.body != Decoded("success") { return Failed, slept'; }
      verdict := Succeeded;
    }

    /** The session ID the request goes on with; asked for only if none is held. */
    method HoldSession(replies: nat -> Reply, calls: nat) returns (held: bool, calls': nat)
      modifies this
      ensures held <==> old(sessionID) != "" || Grants(replies(calls))
      ensures held ==> sessionID == if old(sessionID) != "" then old(sessionID) else replies(calls).session
      ensures calls' == if old(sessionID) == "" then calls + 1 else calls
    {
      held, calls' := true, calls;
      if sessionID == "" {
        held := GetSessionID(replies(calls));
        calls' := calls + 1;
      }
    }

    /** One attempt: the post that is made under the session held, and what becomes of the request. */
    method Attempt(reply: Reply, attempt: nat, slept: nat, ghost posts: seq<Post>, ghost initial: string,
                   ghost replies: nat -> Reply, ghost offset: nat)
      returns (verdict: Verdict, slept': nat, ghost posts': seq<Post>)
      requires attempt == |posts| <= MAX_RETRIES && Trying(posts, initial, replies, offset, sessionID, slept)
      requires reply == At(replies, offset, attempt)
      modifies this
      ensures |posts'| == attempt + 1
      ensures verdict == Again ==> Trying(posts', initial, replies, offset, sessionID, slept')
      ensures verdict != Again || attempt == MAX_RETRIES ==>
                Ended(posts', initial, replies, offset, verdict == Succeeded, slept')
    {
      posts' := MakePost(posts, reply, initial, replies, offset, sessionID, slept);
      verdict, slept' := Judge(reply, attempt, slept);
    }

    /** `replies` is what the server answers to the calls made, in order; `offset` of them are session requests. */
    method Request(replies: nat -> Reply) returns (ok: bool, slept: nat, ghost posts: seq<Post>, ghost initial: string,
                   ghost offset: nat)
      modifies this
      ensures offset == if old(sessionID) == "" then 1 else 0
      ensures posts != [] <==> old(sessionID) != "" || Grants(replies(0))
      ensures posts != [] ==> initial == if old(sessionID) != "" then old(sessionID) else replies(0).session
      ensures if posts == [] then !ok && slept == 0 else Ended(posts, initial, replies, offset, ok, slept)
    {
      ok, posts, slept, initial := false, [], 0, sessionID;
      offset := if sessionID == "" then 1 else 0;
      var calls: nat := 0;
      var attempt := 0;
      while attempt <= MAX_RETRIES
        invariant 0 <= attempt <= MAX_RETRIES + 1 && |posts| == attempt && !ok
        invariant attempt == 0 ==> sessionID == old(sessionID) && calls == 0 && slept == 0
        invariant attempt > 0 ==> calls == offset + attempt && IsInitial(initial, old(sessionID), replies)
        invariant attempt > 0 ==> Trying(posts, initial, replies, offset, sessionID, slept)
        invariant attempt > MAX_RETRIES ==> Ended(posts, initial, replies, offset, false, slept)
      {
        var held;
        held, calls := HoldSession(replies, calls);
        if !held { return; }
        if attempt == 0 { initial := sessionID; }
        NothingPosted(initial, replies, offset);
        var verdict;
        verdict, slept, posts := Attempt(replies(calls), attempt, slept, posts, initial, replies, offset);
        calls := calls + 1;
        if verdict != Again {
          ok := verdict == Succeeded;
          return;
        }
        attempt := attempt + 1;
      }
    }
  }

  lemma NothingPosted(initial: string, replies: nat -> Reply, offset: nat)
    ensures initial != "" ==> Trying([], initial, replies, offset, initial, 0)
  {
  }

  ghost predicate IsInitial(initial: string, held: string, replies: nat -> Reply) {
    if held != "" then initial == held else Grants(replies(0)) && initial == replies(0).session
  }

  datatype Verdict = Again | Succeeded | Failed

  /** The posts whose reply is waited on: all but a fourth. */
  function BeforeLast(posts: seq<Post>): seq<Post> {
    if |posts| > MAX_RETRIES then posts[..MAX_RETRIES] else posts
  }

  /** Posts that all asked for another try. */
  ghost predicate Trying(posts: seq<Post>, initial: string, replies: nat -> Reply, offset: nat, session: string,
                         slept: nat) {
    && initial != "" && IsRun(posts, initial, replies, offset) && AllRetryable(posts, |posts|)
    && session == SessionAfter(initial, posts) && session != "" && slept == Slept(BeforeLast(posts))
  }

  /** A request that is over, with its result and the sleep it took. */
  ghost predicate Ended(posts: seq<Post>, initial: string, replies: nat -> Reply, offset: nat, ok: bool, slept: nat) {
    && IsRequest(posts, initial, replies, offset)
    && (ok <==> Good(posts[|posts| - 1].reply)) && slept == Slept(BeforeLast(posts))
  }

  /**
   * The posts of one request: at most four, every one but the last worth retrying, and the last too only if
   * attempts are used up.
   */
  ghost predicate IsRequest(posts: seq<Post>, initial: string, replies: nat -> Reply, offset: nat) {
    && 0 < |posts| <= MAX_RETRIES + 1 && initial != "" && IsRun(posts, initial, replies, offset)
    && AllRetryable(posts, |posts| - 1) && (Retryable(posts[|posts| - 1].reply) ==> |posts| == MAX_RETRIES + 1)
  }

  lemma RunExtends(earlier: seq<Post>, post: Post, initial: string, replies: nat -> Reply, offset: nat)
    requires IsRun(earlier, initial, replies, offset)
    requires post == Post(SessionAfter(initial, earlier), Slept(earlier), At(replies, offset, |earlier|))
    ensures IsRun(earlier + [post], initial, replies, offset)
  {
    var posts := earlier + [post];
    forall i | 0 <= i < |posts|
      ensures posts[i] == Post(SessionAfter(initial, posts[..i]), Slept(posts[..i]), At(replies, offset, i))
    {
      if i < |earlier| {
        assert posts[i] == earlier[i] && posts[..i] == earlier[..i];
      } else {
        assert posts[..i] == earlier;
      }
    }
  }

  lemma OneStep(earlier: seq<Post>, post: Post, initial: string)
    ensures SessionAfter(initial, earlier + [post]) == if Expired(post.reply) then post.reply.session
            else SessionAfter(initial, earlier)
    ensures Slept(earlier + [post]) == Slept(earlier) + if post.reply == TransportError then Pow2(|earlier|) else 0
  {
    assert (earlier + [post])[..|earlier|] == earlier;
  }

  lemma AllRetryableExtends(earlier: seq<Post>, post: Post)
    requires AllRetryable(earlier, |earlier|)
    ensures AllRetryable(earlier + [post], |earlier|)
    ensures Retryable(post.reply) ==> AllRetryable(earlier + [post], |earlier| + 1)
  {
  }

  lemma SleepAfter(earlier: seq<Post>, post: Post)
    requires |earlier| <= MAX_RETRIES
    ensures Slept(BeforeLast(earlier)) == Slept(earlier)
    ensures Slept(BeforeLast(earlier + [post])) == Total(earlier, post)
  {
    assert BeforeLast(earlier) == earlier;
    assert BeforeLast(earlier + [post]) == if |earlier| == MAX_RETRIES then earlier else earlier + [post];
    OneStep(earlier, post, "");
  }

  function Total(earlier: seq<Post>, post: Post): nat {
    if post.reply == TransportError && |earlier| < MAX_RETRIES then Slept(earlier) + Pow2(|earlier|) else Slept(earlier)
  }

  /** What one more post makes of a request under way. */
  lemma MakePost(earlier: seq<Post>, reply: Reply, initial: string, replies: nat -> Reply, offset: nat, session: string,
                 slept: nat)
    returns (posts: seq<Post>)
    requires Trying(earlier, initial, replies, offset, session, slept) && |earlier| <= MAX_RETRIES
    requires reply == At(replies, offset, |earlier|)
    ensures |posts| == |earlier| + 1
    ensures var total := if reply == TransportError && |earlier| < MAX_RETRIES then slept + Pow2(|earlier|) else slept;
            && (Retryable(reply) ==> Trying(posts, initial, replies, offset, if Expired(reply) then reply.session
                                            else session, total))
            && (!Retryable(reply) || |earlier| == MAX_RETRIES ==>
                  Ended(posts, initial, replies, offset, Good(reply), total))
  {
    var post := Post(session, slept, reply);
    posts := earlier + [post];
    if Retryable(reply) { TryAgain(earlier, post, initial, replies, offset, session, slept); }
    if !Retryable(reply) || |earlier| == MAX_RETRIES { EndsHere(earlier, post, initial, replies, offset, session,
                                                                slept); }
  }

  /** A post worth retrying leaves the request under way, perhaps under a new session. */
  lemma TryAgain(earlier: seq<Post>, post: Post, initial: string, replies: nat -> Reply, offset: nat, session: string,
                 slept: nat)
    requires Trying(earlier, initial, replies, offset, session, slept) && |earlier| <= MAX_RETRIES
    requires Retryable(post.reply)
    requires post == Post(session, slept, At(replies, offset, |earlier|))
    ensures slept == Slept(earlier)
    ensures Trying(earlier + [post], initial, replies, offset, if Expired(post.reply) then post.reply.session
                   else session, Total(earlier, post))
  {
    SleepAfter(earlier, post);
    RunExtends(earlier, post, initial, replies, offset);
    OneStep(earlier, post, initial);
    AllRetryableExtends(earlier, post);
  }

  /** Any other post ends it, and so does a fourth one. */
  lemma EndsHere(earlier: seq<Post>, post: Post, initial: string, replies: nat -> Reply, offset: nat, session: string,
                 slept: nat)
    requires Trying(earlier, initial, replies, offset, session, slept) && |earlier| <= MAX_RETRIES
    requires !Retryable(post.reply) || |earlier| == MAX_RETRIES
    requires post == Post(session, slept, At(replies, offset, |earlier|))
    ensures slept == Slept(earlier)
    ensures Ended(earlier + [post], initial, replies, offset, Good(post.reply), Total(earlier, post))
  {
    SleepAfter(earlier, post);
    RunExtends(earlier, post, initial, replies, offset);
    AllRetryableExtends(earlier, post);
  }

  lemma {:induction false} SessionIsHeld(posts: seq<Post>, initial: string)
    requires initial != ""
    ensures SessionAfter(initial, posts) != ""
  {
    if posts != [] && !Expired(posts[|posts| - 1].reply) {
      SessionIsHeld(posts[..|posts| - 1], initial);
    }
  }

  lemma {:induction false} SleepIsBounded(posts: seq<Post>)
    ensures Slept(posts) < Pow2(|posts|)
  {
    if posts != [] { SleepIsBounded(posts[..|posts| - 1]); }
  }

  /** Whatever the server does: at most four posts, every one under a session ID, and at most seven seconds of sleep. */
  lemma RequestIsBounded(posts: seq<Post>, initial: string, replies: nat -> Reply, offset: nat)
    requires IsRequest(posts, initial, replies, offset)
    ensures |posts| <= 4 && Slept(BeforeLast(posts)) <= 7
    ensures forall i :: 0 <= i < |posts| ==> posts[i].session != "" && posts[i].slept <= 7
  {
    assert Pow2(0) == 1 && Pow2(1) == 2 && Pow2(2) == 4 && Pow2(3) == 8;
    SleepIsBounded(BeforeLast(posts));
    forall i | 0 <= i < |posts| ensures posts[i].session != "" && posts[i].slept <= 7 {
      SessionIsHeld(posts[..i], initial);
      SleepIsBounded(posts[..i]);
    }
  }

  lemma RecoversInFull(replies: nat -> Reply, offset: nat)
    ensures Recovers(replies, offset) <==>
              exists n: nat ::
                && n <= 3 && At(replies, offset, n).Status? && At(replies, offset, n).code == 200
                && At(replies, offset, n).body == Decoded("success")
                && forall i :: 0 <= i < n ==>
                     var r := At(replies, offset, i); r.TransportError? || (r.code == 409 && r.session != "")
  {
    if Recovers(replies, offset) {
      var n: nat :| RecoversAfter(replies, offset, n);
      assert At(replies, offset, n).Status?;
    }
    if n: nat :|
      && n <= 3 && At(replies, offset, n).Status? && At(replies, offset, n).code == 200
      && At(replies, offset, n).body == Decoded("success")
      && forall i :: 0 <= i < n ==>
           var r := At(replies, offset, i); r.TransportError? || (r.code == 409 && r.session != "")
    {
      assert RecoversAfter(replies, offset, n);
    }
  }

  lemma NextPost(posts: seq<Post>, initial: string, replies: nat -> Reply, offset: nat, i: nat)
    requires IsRequest(posts, initial, replies, offset) && 0 < i < |posts|
    ensures var last := posts[i - 1];
            && Retryable(last.reply)
            && posts[i].session == (if last.reply.TransportError? then last.session else last.reply.session)
            && posts[i].slept == last.slept + if last.reply.TransportError? then Pow2(i - 1) else 0
  {
    var earlier := posts[..i - 1];
    assert posts[..i] == earlier + [posts[i - 1]];
    assert posts[i - 1] == Post(SessionAfter(initial, earlier), Slept(earlier), At(replies, offset, i - 1));
    OneStep(earlier, posts[i - 1], initial);
  }

  /**
   * A request in full. Only transport errors and expired sessions that bring a new ID are tried again, and the fourth
   * post is the last; after a transport error of the first three posts one, two and four seconds are slept; an expired
   * session is replaced by the one it brings.
   */
  lemma RequestInFull(posts: seq<Post>, initial: string, replies: nat -> Reply, offset: nat)
    requires IsRequest(posts, initial, replies, offset)
    ensures |posts| == 4 <==>
              forall i :: 0 <= i < 3 ==>
                var r := At(replies, offset, i); r.TransportError? || (r.code == 409 && r.session != "")
    ensures forall i :: 0 <= i < |posts| ==> posts[i].reply == At(replies, offset, i)
    ensures posts[0].session == initial && posts[0].slept == 0
    ensures forall i :: 0 < i < |posts| ==>
              var last := posts[i - 1];
              && posts[i].session == (if last.reply.TransportError? then last.session else last.reply.session)
              && posts[i].slept == last.slept + if !last.reply.TransportError? then 0
                                                else if i == 1 then 1 else if i == 2 then 2 else 4
  {
    assert Pow2(0) == 1 && Pow2(1) == 2 && Pow2(2) == 4;
    forall i | 0 < i < |posts|
      ensures var last := posts[i - 1];
              && Retryable(last.reply)
              && posts[i].session == (if last.reply.TransportError? then last.session else last.reply.session)
              && posts[i].slept == last.slept + if last.reply.TransportError? then Pow2(i - 1) else 0
    {
      NextPost(posts, initial, replies, offset, i);
    }
    assert |posts| < 4 ==> !Retryable(At(replies, offset, |posts| - 1));
  }

  /**
   * Once a session is held, a request succeeds exactly if the server recovers within three retries: after at most three
   * replies worth another try it answers 200 with the result "success".
   */
  lemma SucceedsIffRecovers(posts: seq<Post>, initial: string, replies: nat -> Reply, offset: nat)
    requires IsRequest(posts, initial, replies, offset)
    ensures Good(posts[|posts| - 1].reply) <==> Recovers(replies, offset)
    ensures Recovers(replies, offset) <==>
              exists n: nat ::
                && n <= 3 && At(replies, offset, n).Status? && At(replies, offset, n).code == 200
                && At(replies, offset, n).body == Decoded("success")
                && forall i :: 0 <= i < n ==>
                     var r := At(replies, offset, i); r.TransportError? || (r.code == 409 && r.session != "")
  {
    RecoversInFull(replies, offset);
    var last := |posts| - 1;
    forall i | 0 <= i <= last ensures At(replies, offset, i) == posts[i].reply {}
    if Good(posts[last].reply) {
      assert RecoversAfter(replies, offset, last);
    }
    if Recovers(replies, offset) {
      var n: nat :| RecoversAfter(replies, offset, n);
      if n < last { assert Retryable(At(replies, offset, n)); }
    }
  }
}
