/** Cutting a byte stream into frames by a rule that looks at the head of the
    queue only.  Both splitters of mctools.c are instances; what does not depend
    on the particular rule is proved here once. */
module StreamParsing {
  import opened Bytes

  /** What a rule decides about a queue. */
  datatype Head = Wait | Drop | Emit(len: nat)

  type Rule = seq<byte> -> Head

  /** Octets the decision takes off the queue. */
  function Taken(r: Rule, q: seq<byte>): (d: nat)
    ensures d <= |q|
  {
    match r(q)
    case Wait => 0
    case Drop => if q == [] then 0 else 1
    case Emit(n) => if n <= |q| then n else 0
  }

  datatype Item = Dropped(octets: seq<byte>) | Frame(octets: seq<byte>)

  /** How the stream is consumed, item by item. */
  function Items(r: Rule, q: seq<byte>): seq<Item>
    decreases |q|
  {
    var d := Taken(r, q);
    if d == 0 then []
    else [if r(q).Emit? then Frame(q[..d]) else Dropped(q[..d])] + Items(r, q[d..])
  }

  datatype Parsed = Parsed(frames: seq<seq<byte>>, rest: seq<byte>)

  /** All frames in `q` and the octets left. */
  function Parse(r: Rule, q: seq<byte>): (p: Parsed)
    ensures |p.rest| <= |q|
    decreases |q|
  {
    var d := Taken(r, q);
    if d == 0 then Parsed([], q)
    else
      Prepend(if r(q).Emit? then [q[..d]] else [], Parse(r, q[d..]))
  }

  function Prepend(fs: seq<seq<byte>>, p: Parsed): Parsed
  {
    Parsed(fs + p.frames, p.rest)
  }

  /** Some queue the parse looks at satisfies `bad`. */
  predicate Reaches(r: Rule, bad: seq<byte> -> bool, q: seq<byte>)
    decreases |q|
  {
    var d := Taken(r, q);
    bad(q) || (d > 0 && Reaches(r, bad, q[d..]))
  }

  /** Decisions are final: data arriving later does not change them. */
  ghost predicate Stable(r: Rule)
  {
    forall q: seq<byte>, m: seq<byte> :: StableAt(r, q, m)
  }

  predicate StableAt(r: Rule, q: seq<byte>, m: seq<byte>)
  {
    Taken(r, q) > 0 ==> r(q + m) == r(q)
  }

  lemma StableTaken(r: Rule, q: seq<byte>, m: seq<byte>)
    requires Stable(r) && Taken(r, q) > 0
    ensures r(q + m) == r(q)
    ensures var d := Taken(r, q);
            Taken(r, q + m) == d && (q + m)[..d] == q[..d] && (q + m)[d..] == q[d..] + m
  {
    assert StableAt(r, q, m);
  }

  lemma ParseUnfold(r: Rule, q: seq<byte>)
    requires Taken(r, q) > 0
    ensures var d := Taken(r, q);
            Parse(r, q) == Prepend(if r(q).Emit? then [q[..d]] else [], Parse(r, q[d..]))
  {
  }

  lemma PrependTwice(a: seq<seq<byte>>, b: seq<seq<byte>>, p: Parsed)
    ensures Prepend(a, Prepend(b, p)) == Prepend(a + b, p)
    ensures Prepend([], p) == p
  {
    assert a + (b + p.frames) == a + b + p.frames;
    assert [] + p.frames == p.frames;
  }

  /** More data behind a queue: frames already recognised stay, and parsing
      resumes from what was left. */
  lemma {:induction false} ParseAppend(r: Rule, q: seq<byte>, m: seq<byte>)
    requires Stable(r)
    ensures Parse(r, q + m) == Prepend(Parse(r, q).frames, Parse(r, Parse(r, q).rest + m))
    decreases |q|
  {
    var d := Taken(r, q);
    if d == 0 {
      PrependTwice([], [], Parse(r, q + m));
    } else {
      var h := if r(q).Emit? then [q[..d]] else [];
      var p := Parse(r, q[d..]);
      calc {
        Parse(r, q + m);
        { StableTaken(r, q, m); ParseUnfold(r, q + m); }
        Prepend(h, Parse(r, q[d..] + m));
        { ParseAppend(r, q[d..], m); }
        Prepend(h, Prepend(p.frames, Parse(r, p.rest + m)));
        { PrependTwice(h, p.frames, Parse(r, p.rest + m)); }
        Prepend(h + p.frames, Parse(r, p.rest + m));
        { ParseUnfold(r, q); }
        Prepend(Parse(r, q).frames, Parse(r, Parse(r, q).rest + m));
      }
    }
  }

  /** The same when only `done` of the frames have been taken out already. */
  lemma ParseContinues(r: Rule, done: seq<seq<byte>>, sent: seq<byte>, q: seq<byte>, m: seq<byte>)
    requires Stable(r) && Parse(r, sent) == Prepend(done, Parse(r, q))
    ensures Parse(r, sent + m) == Prepend(done, Parse(r, q + m))
  {
    ParseAppend(r, sent, m);
    ParseAppend(r, q, m);
    var p := Parse(r, q);
    PrependTwice(done, p.frames, Parse(r, p.rest + m));
  }

  /** Frames found early are a prefix of the frames of the whole. */
  lemma EarlyFrames(r: Rule, q: seq<byte>, m: seq<byte>)
    requires Stable(r)
    ensures Parse(r, q).frames <= Parse(r, q + m).frames
  {
    ParseAppend(r, q, m);
  }

  lemma {:induction false} ReachesAppend(r: Rule, bad: seq<byte> -> bool, q: seq<byte>, m: seq<byte>)
    requires Stable(r) && !Reaches(r, bad, q + m)
    requires forall s: seq<byte>, t: seq<byte> :: bad(s) ==> bad(s + t)
    ensures !Reaches(r, bad, q)
    ensures !Reaches(r, bad, Parse(r, q).rest + m)
    decreases |q|
  {
    var d := Taken(r, q);
    if d > 0 {
      StableTaken(r, q, m);
      ReachesAppend(r, bad, q[d..], m);
    }
  }

  /** Nothing more can be taken out of what a parse leaves. */
  lemma {:induction false} RestIsDrained(r: Rule, q: seq<byte>)
    ensures Taken(r, Parse(r, q).rest) == 0
    decreases |q|
  {
    if Taken(r, q) > 0 {
      RestIsDrained(r, q[Taken(r, q)..]);
    }
  }

  /** After a drain nothing is left to parse. */
  lemma DrainedParse(r: Rule, done: seq<seq<byte>>, s: seq<byte>)
    ensures var p := Parse(r, s);
            Prepend(done + p.frames, Parse(r, p.rest)) == Prepend(done, p) == Parsed(done + p.frames, p.rest)
  {
    RestIsDrained(r, s);
    var all := done + Parse(r, s).frames;
    assert all + [] == all;
  }

  /** Feeding chunk after chunk, draining fully after each. */
  function Feed(r: Rule, rest: seq<byte>, chunks: seq<seq<byte>>): Parsed
    decreases |chunks|
  {
    if chunks == [] then Parsed([], rest)
    else
      var p := Parse(r, rest + chunks[0]);
      Prepend(p.frames, Feed(r, p.rest, chunks[1..]))
  }

  lemma {:induction false} FeedIsParse(r: Rule, rest: seq<byte>, chunks: seq<seq<byte>>)
    requires Stable(r) && Taken(r, rest) == 0
    ensures Feed(r, rest, chunks) == Parse(r, rest + Concat(chunks))
    decreases |chunks|
  {
    if chunks == [] {
      assert rest + Concat(chunks) == rest;
    } else {
      RestIsDrained(r, rest + chunks[0]);
      FeedIsParse(r, Parse(r, rest + chunks[0]).rest, chunks[1..]);
      ParseAppend(r, rest + chunks[0], Concat(chunks[1..]));
      assert rest + Concat(chunks) == rest + chunks[0] + Concat(chunks[1..]);
    }
  }

  /** Draining what is there, then feeding the rest, is one parse of it all. */
  lemma FeedAfterParse(r: Rule, q: seq<byte>, chunks: seq<seq<byte>>)
    requires Stable(r)
    ensures Prepend(Parse(r, q).frames, Feed(r, Parse(r, q).rest, chunks)) == Parse(r, q + Concat(chunks))
  {
    RestIsDrained(r, q);
    FeedIsParse(r, Parse(r, q).rest, chunks);
    ParseAppend(r, q, Concat(chunks));
  }

  /** Two ways of cutting the same stream give the same frames and leave the
      same octets queued. */
  lemma ChunkingIrrelevant(r: Rule, rest: seq<byte>, a: seq<seq<byte>>, b: seq<seq<byte>>)
    requires Stable(r) && Taken(r, rest) == 0 && Concat(a) == Concat(b)
    ensures Feed(r, rest, a) == Feed(r, rest, b) == Parse(r, rest + Concat(a))
  {
    FeedIsParse(r, rest, a);
    FeedIsParse(r, rest, b);
  }

  // ------------------------------------------------------- byte accounting

  function Flatten(its: seq<Item>): seq<byte> {
    if its == [] then [] else its[0].octets + Flatten(its[1..])
  }

  function FramesOf(its: seq<Item>): seq<seq<byte>> {
    if its == [] then []
    else (if its[0].Frame? then [its[0].octets] else []) + FramesOf(its[1..])
  }

  /** What was dropped, what was emitted and what is still queued make up the
      stream, in order; and the frames of the parse are those emitted. */
  lemma {:induction false} BytesAccountedFor(r: Rule, q: seq<byte>)
    ensures Flatten(Items(r, q)) + Parse(r, q).rest == q
    ensures FramesOf(Items(r, q)) == Parse(r, q).frames
    decreases |q|
  {
    hide Flatten, FramesOf, Items, Parse;
    var d := Taken(r, q);
    if d > 0 {
      BytesAccountedFor(r, q[d..]);
      ItemsUnfold(r, q);
      ParseUnfold(r, q);
      var its := Items(r, q[d..]);
      Assoc(q[..d], Flatten(its), Parse(r, q[d..]).rest);
      assert q[..d] + q[d..] == q;
    } else {
      NothingTaken(r, q);
    }
  }

  lemma ItemsUnfold(r: Rule, q: seq<byte>)
    requires Taken(r, q) > 0
    ensures var d := Taken(r, q);
            && Items(r, q)[1..] == Items(r, q[d..])
            && Flatten(Items(r, q)) == q[..d] + Flatten(Items(r, q[d..]))
            && FramesOf(Items(r, q)) == (if r(q).Emit? then [q[..d]] else []) + FramesOf(Items(r, q[d..]))
  {
  }

  lemma NothingTaken(r: Rule, q: seq<byte>)
    requires Taken(r, q) == 0
    ensures Flatten(Items(r, q)) + Parse(r, q).rest == q
    ensures FramesOf(Items(r, q)) == Parse(r, q).frames
  {
    assert [] + q == q;
  }

  /** Item k was decided on the suffix of the stream that starts with it. */
  lemma {:induction false} ItemDecidedAt(r: Rule, q: seq<byte>, k: nat)
    requires k < |Items(r, q)|
    ensures var at := |Flatten(Items(r, q)[..k])|;
            && at <= |q| && Taken(r, q[at..]) > 0
            && (Items(r, q)[k].Frame? <==> r(q[at..]).Emit?)
            && Items(r, q)[k].octets == q[at..][..Taken(r, q[at..])]
    decreases k
  {
    var d, its := Taken(r, q), Items(r, q);
    if k == 0 {
      assert its[..0] == [];
      assert q[0..] == q;
    } else {
      assert its[1..] == Items(r, q[d..]);
      ItemDecidedAt(r, q[d..], k - 1);
      var at := |Flatten(its[1..][..k - 1])|;
      assert its[..k][1..] == its[1..][..k - 1];
      assert q[d..][at..] == q[d + at..];
    }
  }

  /** Each emitted frame was decided on some queue starting with it. */
  lemma {:induction false} EmittedFrom(r: Rule, q: seq<byte>, k: nat) returns (at: nat)
    requires k < |Parse(r, q).frames|
    ensures at <= |q| && r(q[at..]).Emit? && Taken(r, q[at..]) > 0
    ensures Parse(r, q).frames[k] == q[at..][..Taken(r, q[at..])]
    decreases |q|
  {
    var d := Taken(r, q);
    if r(q).Emit? && k == 0 {
      at := 0;
      assert q[0..] == q;
    } else {
      var at' := EmittedFrom(r, q[d..], if r(q).Emit? then k - 1 else k);
      at := d + at';
      assert q[d..][at'..] == q[at..];
    }
  }
}
