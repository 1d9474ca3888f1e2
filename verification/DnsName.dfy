/**
 The decompressor of DNS names (section 4.1.4 of RFC 1035): a loop with a bound of 32
 visits and a set of the offsets seen, against the recursive meaning of compressed names.
 */
module DnsName {
  import opened Octets

  // ---------------------------------------------------------------- the meaning of names

  /** What stands at an offset. */
  datatype Hop =
    | Broken                                   // outside the message, or not a legal octet
    | End
    | Label(text: Bytes, next: nat)
    | Jump(next: nat)

  function HopAt(m: Bytes, o: nat): Hop
  {
    if o >= |m| then Broken
    else
      var b: nat := m[o];
      if b == 0 then End
      else if b >= 192 then
        if o + 1 >= |m| then Broken else
          var low: nat := m[o + 1];
          Jump((b - 192) * 256 + low)
      else if b >= 64 || o + 1 + b > |m| then Broken
      else Label(m[o + 1..o + 1 + b], o + 1 + b)
  }

  /** A hop that can be written at an offset: labels of 1 to 63 octets, pointers of 14 bits. */
  predicate Writable(h: Hop, o: nat)
  {
    match h
    case Broken => false
    case End => true
    case Label(text, n) => 1 <= |text| <= 63 && n == o + 1 + |text|
    case Jump(n) => n < 0x4000
  }

  /** How it is written (sections 3.1 and 4.1.4 of RFC 1035). */
  function Written(h: Hop, o: nat): Bytes
    requires Writable(h, o)
  {
    match h
    case End => [0]
    case Label(text, _) => [|text|] + text
    case Jump(n) => [0xc0 + n / 256, n % 256]
  }

  /** `w` stands at an offset. */
  predicate StandsAt(m: Bytes, o: nat, w: Bytes) { o + |w| <= |m| && m[o..o + |w|] == w }

  lemma {:induction false} ReadIsWritten(m: Bytes, o: nat)
    requires !HopAt(m, o).Broken?
    ensures Writable(HopAt(m, o), o) && StandsAt(m, o, Written(HopAt(m, o), o))
  {
    var h := HopAt(m, o);
    match h
    case End => assert m[o..o + 1] == [m[o]];
    case Label(text, n) => assert m[o..n] == [m[o]] + m[o + 1..n];
    case Jump(n) => assert m[o..o + 2] == [m[o], m[o + 1]];
  }

  lemma {:induction false} WrittenIsRead(m: Bytes, o: nat, h: Hop)
    requires Writable(h, o) && StandsAt(m, o, Written(h, o))
    ensures HopAt(m, o) == h
  {
    var w := Written(h, o);
    var there := m[o..o + |w|];
    assert m[o] == there[0];
    match h
    case End =>
    case Label(text, n) => assert m[o + 1..n] == there[1..] == text;
    case Jump(n) => assert m[o + 1] == there[1];
  }

  /** At an offset stands exactly the hop that is written there, if one is. */
  lemma {:induction false} ReadsWhatIsWritten(m: Bytes, o: nat, h: Hop)
    requires !h.Broken?
    ensures HopAt(m, o) == h <==> Writable(h, o) && StandsAt(m, o, Written(h, o))
  {
    if HopAt(m, o) == h {
      ReadIsWritten(m, o);
    }
    if Writable(h, o) && StandsAt(m, o, Written(h, o)) {
      WrittenIsRead(m, o, h);
    }
  }

  /** The offsets a name visits, from `o` to the zero octet. */
  predicate Path(m: Bytes, o: nat, path: seq<nat>)
    decreases |path|
  {
    && path != [] && path[0] == o
    && match HopAt(m, o)
       case Broken => false
       case End => |path| == 1
       case Label(_, n) => Path(m, n, path[1..])
       case Jump(n) => Path(m, n, path[1..])
  }

  /** A name: its labels, and the offset behind its first part. */
  datatype Name = Name(labels: seq<Bytes>, next: nat)

  function NameAlong(m: Bytes, o: nat, path: seq<nat>): Name
    requires Path(m, o, path)
    decreases |path|
  {
    match HopAt(m, o)
    case End => Name([], o + 1)
    case Label(text, n) =>
      var rest := NameAlong(m, n, path[1..]);
      Name([text] + rest.labels, rest.next)
    case Jump(n) => Name(NameAlong(m, n, path[1..]).labels, o + 2)
  }

  /** The name at an offset, if the zero octet is reached in at most `visits` visits. */
  function Resolve(m: Bytes, o: nat, visits: nat): Option<Name>
    decreases visits, m
  {
    if visits == 0 then None
    else
      match HopAt(m, o)
      case Broken => None
      case End => Some(Name([], o + 1))
      case Label(text, n) =>
        var r := Resolve(m, n, visits - 1);
        if r.None? then None else Some(Name([text] + r.value.labels, r.value.next))
      case Jump(n) =>
        var r := Resolve(m, n, visits - 1);
        if r.None? then None else Some(Name(r.value.labels, o + 2))
  }

  lemma {:induction false} PathUnique(m: Bytes, o: nat, p: seq<nat>, q: seq<nat>)
    requires Path(m, o, p) && Path(m, o, q)
    ensures p == q
    decreases |p|
  {
    match HopAt(m, o)
    case End =>
    case Label(_, n) => PathUnique(m, n, p[1..], q[1..]);
    case Jump(n) => PathUnique(m, n, p[1..], q[1..]);
  }

  lemma {:induction false} ResolveFollowsPath(m: Bytes, o: nat, visits: nat, path: seq<nat>)
    requires Path(m, o, path) && |path| <= visits
    ensures Resolve(m, o, visits) == Some(NameAlong(m, o, path))
    decreases visits
  {
    match HopAt(m, o)
    case End =>
    case Label(_, n) => ResolveFollowsPath(m, n, visits - 1, path[1..]);
    case Jump(n) => ResolveFollowsPath(m, n, visits - 1, path[1..]);
  }

  lemma {:induction false} ResolveHasPath(m: Bytes, o: nat, visits: nat) returns (path: seq<nat>)
    requires Resolve(m, o, visits).Some?
    ensures Path(m, o, path) && |path| <= visits
    decreases visits
  {
    match HopAt(m, o)
    case End => path := [o];
    case Label(_, n) =>
      var rest := ResolveHasPath(m, n, visits - 1);
      path := [o] + rest;
      assert path[1..] == rest;
    case Jump(n) =>
      var rest := ResolveHasPath(m, n, visits - 1);
      path := [o] + rest;
      assert path[1..] == rest;
  }

  /** Resolution succeeds exactly when the zero octet is reached within the visits. */
  lemma {:induction false} ResolvesExactlyWhen(m: Bytes, o: nat, visits: nat)
    ensures Resolve(m, o, visits).Some? <==> exists path :: Path(m, o, path) && |path| <= visits
  {
    if Resolve(m, o, visits).Some? {
      var path := ResolveHasPath(m, o, visits);
    }
    forall path | Path(m, o, path) && |path| <= visits ensures Resolve(m, o, visits).Some? {
      ResolveFollowsPath(m, o, visits, path);
    }
  }

  /** The offset behind a name is behind its start and within the message. */
  lemma {:induction false} NextInRange(m: Bytes, o: nat, visits: nat)
    requires Resolve(m, o, visits).Some?
    ensures o < Resolve(m, o, visits).value.next <= |m|
    decreases visits
  {
    match HopAt(m, o)
    case End =>
    case Label(_, n) => NextInRange(m, n, visits - 1);
    case Jump(n) =>
  }

  // ---------------------------------------------------------------- walks

  /** `trail` leads from `start` to `o`. */
  predicate Walk(m: Bytes, start: nat, trail: seq<nat>, o: nat)
    decreases |trail|
  {
    if trail == [] then start == o
    else
      && trail[0] == start
      && match HopAt(m, start)
         case Broken => false
         case End => false
         case Label(_, n) => Walk(m, n, trail[1..], o)
         case Jump(n) => Walk(m, n, trail[1..], o)
  }

  lemma {:induction false} WalkOn(m: Bytes, start: nat, trail: seq<nat>, o: nat)
    requires Walk(m, start, trail, o) && (HopAt(m, o).Label? || HopAt(m, o).Jump?)
    ensures Walk(m, start, trail + [o], HopAt(m, o).next)
    decreases |trail|
  {
    if trail == [] {
      assert (trail + [o])[1..] == [];
    } else {
      assert (trail + [o])[1..] == trail[1..] + [o];
      WalkOn(m, HopAt(m, start).next, trail[1..], o);
    }
  }

  /** A path goes along every walk from its start. */
  lemma {:induction false} PathAlongWalk(m: Bytes, start: nat, trail: seq<nat>, o: nat, path: seq<nat>)
    requires Walk(m, start, trail, o) && Path(m, start, path)
    ensures |trail| < |path| && Path(m, o, path[|trail|..])
    decreases |trail|
  {
    if trail == [] {
      assert path[0..] == path;
    } else {
      PathAlongWalk(m, HopAt(m, start).next, trail[1..], o, path[1..]);
      assert path[1..][|trail| - 1..] == path[|trail|..];
    }
  }

  lemma {:induction false} WalkFrom(m: Bytes, start: nat, trail: seq<nat>, o: nat, i: nat)
    requires Walk(m, start, trail, o) && i < |trail|
    ensures Walk(m, trail[i], trail[i..], o)
    decreases |trail|
  {
    if i > 0 {
      WalkFrom(m, HopAt(m, start).next, trail[1..], o, i - 1);
      assert trail[1..][i - 1..] == trail[i..];
    } else {
      assert trail[0..] == trail;
    }
  }

  /** A walk that returns to an offset it has visited never ends. */
  lemma {:induction false} LoopHasNoPath(m: Bytes, start: nat, trail: seq<nat>, o: nat, path: seq<nat>)
    requires Walk(m, start, trail, o) && o in trail
    ensures !Path(m, start, path)
  {
    if Path(m, start, path) {
      var i :| 0 <= i < |trail| && trail[i] == o;
      PathAlongWalk(m, start, trail, o, path);
      var tail := path[|trail|..];
      WalkFrom(m, start, trail, o, i);
      PathAlongWalk(m, o, trail[i..], o, tail);
      PathUnique(m, o, tail, tail[|trail[i..]|..]);
    }
  }

  lemma {:induction false} ResolveAlongWalk(m: Bytes, start: nat, trail: seq<nat>, o: nat, visits: nat)
    requires Walk(m, start, trail, o) && |trail| <= visits
    ensures Resolve(m, start, visits).Some? <==> Resolve(m, o, visits - |trail|).Some?
    decreases |trail|
  {
    if trail != [] {
      ResolveAlongWalk(m, HopAt(m, start).next, trail[1..], o, visits - 1);
    }
  }

  lemma Loops(m: Bytes, start: nat, trail: seq<nat>, o: nat, visits: nat)
    requires Walk(m, start, trail, o) && o in trail
    ensures Resolve(m, start, visits) == None
  {
    if Resolve(m, start, visits).Some? {
      var path := ResolveHasPath(m, start, visits);
      LoopHasNoPath(m, start, trail, o, path);
    }
  }

  /** The labels along a walk, and the offset behind its first jump, if it has one. */
  function LabelsAlong(m: Bytes, trail: seq<nat>): seq<Bytes>
  {
    if trail == [] then []
    else
      var h := HopAt(m, trail[|trail| - 1]);
      LabelsAlong(m, trail[..|trail| - 1]) + if h.Label? then [h.text] else []
  }

  function FirstJump(m: Bytes, trail: seq<nat>): Option<nat>
  {
    if trail == [] then None
    else
      var before := FirstJump(m, trail[..|trail| - 1]);
      if before.Some? then before
      else if HopAt(m, trail[|trail| - 1]).Jump? then Some(trail[|trail| - 1] + 2)
      else None
  }

  lemma {:induction false} LabelsHead(m: Bytes, o: nat, trail: seq<nat>)
    ensures LabelsAlong(m, [o] + trail) ==
            (if HopAt(m, o).Label? then [HopAt(m, o).text] else []) + LabelsAlong(m, trail)
    ensures FirstJump(m, [o] + trail) ==
            if HopAt(m, o).Jump? then Some(o + 2) else FirstJump(m, trail)
    decreases |trail|
  {
    var whole := [o] + trail;
    if trail == [] {
      assert whole[..0] == [];
      assert LabelsAlong(m, []) == [] && FirstJump(m, []) == None;
    } else {
      assert whole[..|whole| - 1] == [o] + trail[..|trail| - 1];
      LabelsHead(m, o, trail[..|trail| - 1]);
    }
  }

  /** A walk that arrives at the zero octet spells the name. */
  lemma {:induction false} WalkSpells(m: Bytes, start: nat, trail: seq<nat>, o: nat, visits: nat)
    requires Walk(m, start, trail, o) && HopAt(m, o).End? && |trail| < visits
    ensures var j := FirstJump(m, trail);
            Resolve(m, start, visits) == Some(Name(LabelsAlong(m, trail), if j.Some? then j.value else o + 1))
    decreases |trail|
  {
    if trail != [] {
      var rest := trail[1..];
      assert trail == [start] + rest;
      LabelsHead(m, start, rest);
      match HopAt(m, start)
      case Label(_, n) => WalkSpells(m, n, rest, o, visits - 1);
      case Jump(n) =>
        WalkSpells(m, n, rest, o, visits - 1);
        Empty(LabelsAlong(m, rest));
    }
  }

  // ---------------------------------------------------------------- the loop

  const DOT: byte := 46

  /** `strings.Join(labels, ".") + "."` */
  function Dotted(labels: seq<Bytes>): Bytes
  {
    if |labels| <= 1 then (if labels == [] then [] else labels[0]) + [DOT]
    else labels[0] + [DOT] + Dotted(labels[1..])
  }

  datatype Read = Good(name: Bytes, next: nat) | Failed

  function Outcome(r: Option<Name>): Read
  {
    if r.None? then Failed else Good(Dotted(r.value.labels), r.value.next)
  }

  /** What the loop has gathered on its way from `start` to `offset`. */
  ghost predicate Gathered(m: Bytes, start: nat, trail: seq<nat>, offset: nat,
                           labels: seq<Bytes>, next: nat, jumped: bool, seen: set<nat>)
  {
    && Walk(m, start, trail, offset)
    && seen == (set k | 0 <= k < |trail| :: trail[k])
    && labels == LabelsAlong(m, trail)
    && jumped == FirstJump(m, trail).Some?
    && (jumped ==> next == FirstJump(m, trail).value)
  }

  /** `r` is the name at `start`, if there is one, however long its path. */
  ghost predicate Answers(m: Bytes, start: nat, r: Read)
  {
    && (r.Good? <==> exists path :: Path(m, start, path))
    && (forall path :: Path(m, start, path) ==> r == Outcome(Some(NameAlong(m, start, path))))
  }

  lemma LoopSeen(m: Bytes, start: nat, trail: seq<nat>, offset: nat,
                 labels: seq<Bytes>, next: nat, jumped: bool, seen: set<nat>)
    requires Gathered(m, start, trail, offset, labels, next, jumped, seen) && offset in seen
    ensures Answers(m, start, Failed)
    ensures Resolve(m, start, 32) == None
  {
    forall path ensures !Path(m, start, path) {
      LoopHasNoPath(m, start, trail, offset, path);
    }
    Loops(m, start, trail, offset, 32);
  }

  lemma TakeLabel(m: Bytes, start: nat, trail: seq<nat>, offset: nat,
                  labels: seq<Bytes>, next: nat, jumped: bool, seen: set<nat>)
    requires Gathered(m, start, trail, offset, labels, next, jumped, seen) && HopAt(m, offset).Label?
    ensures var h := HopAt(m, offset);
            Gathered(m, start, trail + [offset], h.next, labels + [h.text],
                     if jumped then next else h.next, jumped, seen + {offset})
  {
    WalkOn(m, start, trail, offset);
    Extended(m, trail, offset);
  }

  lemma TakeJump(m: Bytes, start: nat, trail: seq<nat>, offset: nat,
                 labels: seq<Bytes>, next: nat, jumped: bool, seen: set<nat>)
    requires Gathered(m, start, trail, offset, labels, next, jumped, seen) && HopAt(m, offset).Jump?
    ensures Gathered(m, start, trail + [offset], HopAt(m, offset).next, labels,
                     if jumped then next else offset + 2, true, seen + {offset})
  {
    WalkOn(m, start, trail, offset);
    Extended(m, trail, offset);
  }

  lemma Arrive(m: Bytes, start: nat, trail: seq<nat>, offset: nat,
               labels: seq<Bytes>, next: nat, jumped: bool, seen: set<nat>)
    requires Gathered(m, start, trail, offset, labels, next, jumped, seen) && HopAt(m, offset).End?
    ensures |trail| < 32 ==>
              Resolve(m, start, 32) == Some(Name(labels, if jumped then next else offset + 1))
    ensures Answers(m, start, Good(Dotted(labels), if jumped then next else offset + 1))
  {
    if |trail| < 32 {
      WalkSpells(m, start, trail, offset, 32);
    }
    forall path | Path(m, start, path)
      ensures NameAlong(m, start, path) == Name(labels, if jumped then next else offset + 1)
    {
      WalkSpells(m, start, trail, offset, |trail| + 1 + |path|);
      ResolveFollowsPath(m, start, |trail| + 1 + |path|, path);
    }
    WalkSpells(m, start, trail, offset, |trail| + 1);
    var path := ResolveHasPath(m, start, |trail| + 1);
  }

  lemma Stuck(m: Bytes, start: nat, trail: seq<nat>, offset: nat)
    requires Walk(m, start, trail, offset) && |trail| <= 32
    requires |trail| == 32 || HopAt(m, offset).Broken?
    ensures Resolve(m, start, 32) == None
  {
    ResolveAlongWalk(m, start, trail, offset, 32);
  }

  /**
   `readName`: the loop with its 32 steps and its seen set gives what the recursive
   definition gives within 32 visits.
   */
  method ReadName(message: Bytes, start: nat) returns (r: Read)
    ensures r == Outcome(Resolve(message, start, 32))
    ensures r.Good? ==> start < r.next <= |message|
  {
    var offset: nat, labels: seq<Bytes>, next: nat, jumped, seen: set<nat> := start, [], start, false, {};
    ghost var trail: seq<nat> := [];
    for steps := 0 to 32
      invariant |trail| == steps
      invariant Gathered(message, start, trail, offset, labels, next, jumped, seen)
    {
      if offset >= |message| {
        Stuck(message, start, trail, offset);
        return Failed;
      }
      if offset in seen {
        LoopSeen(message, start, trail, offset, labels, next, jumped, seen);
        return Failed;
      }
      var b: nat := message[offset];
      if b == 0 {
        Arrive(message, start, trail, offset, labels, next, jumped, seen);
        NextInRange(message, start, 32);
        if !jumped {
          next := offset + 1;
        }
        return Good(Dotted(labels), next);
      }
      if b >= 192 {
        if offset + 1 >= |message| {
          Stuck(message, start, trail, offset);
          return Failed;
        }
        TakeJump(message, start, trail, offset, labels, next, jumped, seen);
        seen, trail := seen + {offset}, trail + [offset];
        if !jumped {
          next, jumped := offset + 2, true;
        }
        var low: nat := message[offset + 1];
        offset := (b - 192) * 256 + low;
      } else {
        if b >= 64 || offset + 1 + b > |message| {
          Stuck(message, start, trail, offset);
          return Failed;
        }
        TakeLabel(message, start, trail, offset, labels, next, jumped, seen);
        seen, trail := seen + {offset}, trail + [offset];
        labels := labels + [message[offset + 1..offset + 1 + b]];
        offset := offset + 1 + b;
        if !jumped {
          next := offset;
        }
      }
    }
    Stuck(message, start, trail, offset);
    return Failed;
  }

  lemma Extended(m: Bytes, trail: seq<nat>, o: nat)
    ensures var h := HopAt(m, o);
            && LabelsAlong(m, trail + [o]) == LabelsAlong(m, trail) + (if h.Label? then [h.text] else [])
            && FirstJump(m, trail + [o]) ==
                 (if FirstJump(m, trail).Some? then FirstJump(m, trail)
                  else if h.Jump? then Some(o + 2) else None)
            && (set k | 0 <= k < |trail + [o]| :: (trail + [o])[k]) ==
                 (set k | 0 <= k < |trail| :: trail[k]) + {o}
  {
    var more := trail + [o];
    assert more[..|trail|] == trail && more[|trail|] == o;
    assert forall k :: 0 <= k < |trail| ==> more[k] == trail[k];
  }

  // ---------------------------------------------------------------- without the bound

  /**
   The same loop with no bound on its steps ends because it marks a new offset of the
   message in every turn, and it succeeds exactly when the name has an end at all.
   */
  method ReadNameUnbounded(message: Bytes, start: nat) returns (r: Read)
    ensures Answers(message, start, r)
  {
    var offset: nat, labels: seq<Bytes>, next: nat, jumped, seen: set<nat> := start, [], start, false, {};
    ghost var trail: seq<nat> := [];
    while true
      invariant Gathered(message, start, trail, offset, labels, next, jumped, seen)
      invariant forall o :: o in seen ==> o < |message|
      decreases |message| - |seen|
    {
      if offset >= |message| {
        NoPathOn(message, start, trail, offset);
        return Failed;
      }
      if offset in seen {
        LoopSeen(message, start, trail, offset, labels, next, jumped, seen);
        return Failed;
      }
      Room(seen, offset, |message|);
      var b: nat := message[offset];
      if b == 0 {
        Arrive(message, start, trail, offset, labels, next, jumped, seen);
        if !jumped {
          next := offset + 1;
        }
        return Good(Dotted(labels), next);
      }
      if b >= 192 {
        if offset + 1 >= |message| {
          NoPathOn(message, start, trail, offset);
          return Failed;
        }
        TakeJump(message, start, trail, offset, labels, next, jumped, seen);
        seen, trail := seen + {offset}, trail + [offset];
        if !jumped {
          next, jumped := offset + 2, true;
        }
        var low: nat := message[offset + 1];
        offset := (b - 192) * 256 + low;
      } else {
        if b >= 64 || offset + 1 + b > |message| {
          NoPathOn(message, start, trail, offset);
          return Failed;
        }
        TakeLabel(message, start, trail, offset, labels, next, jumped, seen);
        seen, trail := seen + {offset}, trail + [offset];
        labels := labels + [message[offset + 1..offset + 1 + b]];
        offset := offset + 1 + b;
        if !jumped {
          next := offset;
        }
      }
    }
  }

  lemma NoPathOn(m: Bytes, start: nat, trail: seq<nat>, o: nat)
    requires Walk(m, start, trail, o) && HopAt(m, o).Broken?
    ensures Answers(m, start, Failed)
  {
    forall path ensures !Path(m, start, path) {
      if Path(m, start, path) {
        PathAlongWalk(m, start, trail, o, path);
      }
    }
  }

  /** Offsets below `n` that leave one out are fewer than `n`. */
  lemma Room(seen: set<nat>, o: nat, n: nat)
    requires o < n && o !in seen && forall k :: k in seen ==> k < n
    ensures |seen| < n
  {
    BelowSize(seen + {o}, n);
  }

  lemma {:induction false} BelowSize(s: set<nat>, n: nat)
    requires forall k :: k in s ==> k < n
    ensures |s| <= n
    decreases n
  {
    if n == 0 {
      assert s == {};
    } else {
      BelowSize(s - {n - 1}, n - 1);
    }
  }

  /**
   The bound turns down a name that ends exactly when it needs more than 32 visits; a name
   of 33 one-octet labels is one.
   */
  lemma {:induction false} BoundRejectsExactlyLongNames(m: Bytes, start: nat, path: seq<nat>)
    requires Path(m, start, path)
    ensures Resolve(m, start, 32).None? <==> |path| > 32
  {
    ResolvesExactlyWhen(m, start, 32);
    if Resolve(m, start, 32).Some? {
      var q := ResolveHasPath(m, start, 32);
      PathUnique(m, start, path, q);
    }
  }

  /** `n` one-octet labels and the zero octet. */
  function ManyLabels(n: nat): Bytes { if n == 0 then [0] else [1, 97] + ManyLabels(n - 1) }

  lemma {:induction false} ManyLabelsPath(prefix: Bytes, n: nat) returns (path: seq<nat>)
    ensures Path(prefix + ManyLabels(n), |prefix|, path) && |path| == n + 1
    decreases n
  {
    var m := prefix + ManyLabels(n);
    if n == 0 {
      path := [|prefix|];
    } else {
      assert m == (prefix + [1, 97]) + ManyLabels(n - 1);
      var rest := ManyLabelsPath(prefix + [1, 97], n - 1);
      path := [|prefix|] + rest;
      assert path[1..] == rest;
    }
  }

  lemma {:induction false} LongNameRejected()
    ensures exists path :: Path(ManyLabels(33), 0, path)
    ensures Resolve(ManyLabels(33), 0, 32).None?
  {
    var path := ManyLabelsPath([], 33);
    assert [] + ManyLabels(33) == ManyLabels(33);
    BoundRejectsExactlyLongNames(ManyLabels(33), 0, path);
  }
}
