/**
 A plain writer of DNS messages, without compression, and the reference parser as its inverse.
 */
module DnsWriting {
  import opened Octets
  import opened DnsName
  import opened DnsResponse

  // ---------------------------------------------------------------- pieces of a message

  lemma {:induction false} StandsSplit(m: Bytes, o: nat, a: Bytes, b: Bytes)
    requires StandsAt(m, o, a + b)
    ensures StandsAt(m, o, a) && StandsAt(m, o + |a|, b)
  {
    var w := m[o..o + |a + b|];
    assert w[..|a|] == a && w[|a|..] == b;
    assert m[o..o + |a|] == w[..|a|];
    assert m[o + |a|..o + |a| + |b|] == w[|a|..];
  }

  function Two(n: nat): Bytes
    requires n < 0x1_0000
  {
    [n / 256, n % 256]
  }

  function Four(n: nat): Bytes
    requires n < 0x1_0000_0000
  {
    Two(n / 65536) + Two(n % 65536)
  }

  lemma {:induction false} TwoReads(m: Bytes, o: nat, n: nat)
    requires n < 0x1_0000 && StandsAt(m, o, Two(n))
    ensures o + 2 <= |m| && Short(m, o) == n
  {
    var w := m[o..o + 2];
    assert m[o] == w[0] && m[o + 1] == w[1];
  }

  lemma {:induction false} FourReads(m: Bytes, o: nat, n: nat)
    requires n < 0x1_0000_0000 && StandsAt(m, o, Four(n))
    ensures o + 4 <= |m| && Long(m, o) == n
  {
    StandsSplit(m, o, Two(n / 65536), Two(n % 65536));
    TwoReads(m, o, n / 65536);
    TwoReads(m, o + 2, n % 65536);
  }

  // ---------------------------------------------------------------- names

  /** Labels that can be written, and that the parser's bound of visits lets through. */
  predicate NameOk(labels: seq<Bytes>) { |labels| < 32 && LabelsOk(labels) }

  predicate LabelsOk(labels: seq<Bytes>) { forall k :: 0 <= k < |labels| ==> 1 <= |labels[k]| <= 63 }

  function WriteName(labels: seq<Bytes>): Bytes
    requires LabelsOk(labels)
  {
    if labels == [] then [0] else [|labels[0]|] + labels[0] + WriteName(labels[1..])
  }

  lemma {:induction false} OverLabel(m: Bytes, o: nat, text: Bytes, n: nat, visits: nat, rest: Name)
    requires visits > 0 && HopAt(m, o) == Label(text, n) && Resolve(m, n, visits - 1) == Some(rest)
    ensures Resolve(m, o, visits) == Some(Name([text] + rest.labels, rest.next))
  {
  }

  lemma {:induction false} FirstLabelStands(m: Bytes, o: nat, text: Bytes, rest: Bytes)
    requires 1 <= |text| <= 63 && StandsAt(m, o, [|text|] + text + rest)
    ensures HopAt(m, o) == Label(text, o + 1 + |text|) && StandsAt(m, o + 1 + |text|, rest)
  {
    StandsSplit(m, o, [|text|] + text, rest);
    WrittenIsRead(m, o, Label(text, o + 1 + |text|));
  }

  lemma {:induction false} NameStep(m: Bytes, o: nat, text: Bytes, w: Bytes, rest: seq<Bytes>, visits: nat)
    requires 1 <= |text| <= 63 && visits > 0 && StandsAt(m, o, [|text|] + text + w)
    requires Resolve(m, o + 1 + |text|, visits - 1) == Some(Name(rest, o + 1 + |text| + |w|))
    ensures Resolve(m, o, visits) == Some(Name([text] + rest, o + |[|text|] + text + w|))
  {
    FirstLabelStands(m, o, text, w);
    OverLabel(m, o, text, o + 1 + |text|, visits, Name(rest, o + 1 + |text| + |w|));
  }

  lemma {:induction false} RootReads(m: Bytes, o: nat, visits: nat)
    requires visits > 0 && StandsAt(m, o, [0])
    ensures Resolve(m, o, visits) == Some(Name([], o + 1))
  {
    WrittenIsRead(m, o, End);
  }

  /** Two laws of resolution, as `RootReads` and `NameStep` prove them. */
  predicate RootLaw(resolve: (nat, nat) -> Option<Name>, m: Bytes, o: nat, visits: nat)
  {
    visits > 0 && StandsAt(m, o, [0]) ==> resolve(o, visits) == Some(Name([], o + 1))
  }

  predicate StepLaw(resolve: (nat, nat) -> Option<Name>, m: Bytes, o: nat, text: Bytes, w: Bytes,
                    rest: seq<Bytes>, visits: nat)
  {
    1 <= |text| <= 63 && visits > 0 && StandsAt(m, o, [|text|] + text + w)
    && resolve(o + 1 + |text|, visits - 1) == Some(Name(rest, o + 1 + |text| + |w|)) ==>
      resolve(o, visits) == Some(Name([text] + rest, o + |[|text|] + text + w|))
  }

  lemma {:induction false} NameReadsBy(resolve: (nat, nat) -> Option<Name>, m: Bytes, o: nat,
                                       labels: seq<Bytes>, visits: nat)
    requires LabelsOk(labels) && |labels| < visits && StandsAt(m, o, WriteName(labels))
    requires forall p: nat, v: nat :: RootLaw(resolve, m, p, v)
    requires forall p: nat, text, w, rest, v: nat :: StepLaw(resolve, m, p, text, w, rest, v)
    ensures resolve(o, visits) == Some(Name(labels, o + |WriteName(labels)|))
    decreases |labels|
  {
    if labels == [] {
      assert RootLaw(resolve, m, o, visits);
    } else {
      var text, rest := labels[0], labels[1..];
      var w := WriteName(rest);
      StandsSplit(m, o, [|text|] + text, w);
      NameReadsBy(resolve, m, o + 1 + |text|, rest, visits - 1);
      assert StepLaw(resolve, m, o, text, w, rest, visits);
      assert labels == [text] + rest;
    }
  }

  function Resolver(m: Bytes): (nat, nat) -> Option<Name> { (o: nat, visits: nat) => Resolve(m, o, visits) }

  lemma {:induction false} RootLawHolds(m: Bytes, o: nat, visits: nat)
    ensures RootLaw(Resolver(m), m, o, visits)
  {
    if visits > 0 && StandsAt(m, o, [0]) {
      RootReads(m, o, visits);
    }
  }

  lemma {:induction false} StepLawHolds(m: Bytes, o: nat, text: Bytes, w: Bytes, rest: seq<Bytes>, visits: nat)
    ensures StepLaw(Resolver(m), m, o, text, w, rest, visits)
  {
    if 1 <= |text| <= 63 && visits > 0 && StandsAt(m, o, [|text|] + text + w)
       && Resolve(m, o + 1 + |text|, visits - 1) == Some(Name(rest, o + 1 + |text| + |w|))
    {
      NameStep(m, o, text, w, rest, visits);
    }
  }

  lemma {:induction false} NameReads(m: Bytes, o: nat, labels: seq<Bytes>, visits: nat)
    requires LabelsOk(labels) && |labels| < visits && StandsAt(m, o, WriteName(labels))
    ensures Resolve(m, o, visits) == Some(Name(labels, o + |WriteName(labels)|))
  {
    forall p: nat, v: nat ensures RootLaw(Resolver(m), m, p, v) {
      RootLawHolds(m, p, v);
    }
    forall p: nat, text, w, rest, v: nat ensures StepLaw(Resolver(m), m, p, text, w, rest, v) {
      StepLawHolds(m, p, text, w, rest, v);
    }
    NameReadsBy(Resolver(m), m, o, labels, visits);
  }

  /** What the parser's reader makes of a name written there. */
  lemma {:induction false} NameOutcome(m: Bytes, o: nat, labels: seq<Bytes>)
    requires NameOk(labels) && StandsAt(m, o, WriteName(labels))
    ensures Outcome(Resolve(m, o, 32)) == Good(Dotted(labels), o + |WriteName(labels)|)
  {
    NameReads(m, o, labels, 32);
  }

  lemma {:induction false} NameInFront(m: Bytes, o: nat, labels: seq<Bytes>, behind: Bytes)
    requires NameOk(labels) && StandsAt(m, o, WriteName(labels) + behind)
    ensures Outcome(Resolve(m, o, 32)) == Good(Dotted(labels), o + |WriteName(labels)|)
    ensures StandsAt(m, o + |WriteName(labels)|, behind)
  {
    StandsSplit(m, o, WriteName(labels), behind);
    NameOutcome(m, o, labels);
  }

  // ---------------------------------------------------------------- questions and records

  datatype PlainQuestion = PlainQuestion(labels: seq<Bytes>, qtype: nat, qclass: nat)
  {
    predicate Ok() { NameOk(labels) && qtype < 0x1_0000 && qclass < 0x1_0000 }

    function Parsed(): Question { Question(Dotted(labels), qtype, qclass) }

    function Octets(): Bytes
      requires Ok()
    {
      WriteName(labels) + (Two(qtype) + Two(qclass))
    }
  }

  datatype PlainRecord = PlainRecord(labels: seq<Bytes>, rtype: nat, rclass: nat, ttl: nat, rdata: Bytes)
  {
    predicate Ok()
    {
      NameOk(labels) && rtype < 0x1_0000 && rclass < 0x1_0000 && ttl < 0x1_0000_0000 && |rdata| < 0x1_0000
    }

    function Parsed(): Record { Record(Dotted(labels), rtype, rclass, ttl, rdata) }

    function Octets(): Bytes
      requires Ok()
    {
      WriteName(labels) + Fields()
    }

    /** What stands behind the owner name. */
    function Fields(): (f: Bytes)
      requires Ok()
      ensures |f| == 10 + |rdata|
    {
      Two(rtype) + (Two(rclass) + (Four(ttl) + (Two(|rdata|) + rdata)))
    }
  }

  lemma {:induction false} QuestionReads(m: Bytes, o: nat, q: PlainQuestion)
    requires q.Ok() && StandsAt(m, o, q.Octets())
    ensures ParseQuestion(m, o) == Parsed(q.Parsed(), o + |q.Octets()|)
  {
    var n := o + |WriteName(q.labels)|;
    NameInFront(m, o, q.labels, Two(q.qtype) + Two(q.qclass));
    StandsSplit(m, n, Two(q.qtype), Two(q.qclass));
    TwoReads(m, n, q.qtype);
    TwoReads(m, n + 2, q.qclass);
  }

  lemma {:induction false} RecordFields(m: Bytes, n: nat, r: PlainRecord)
    requires r.Ok() && StandsAt(m, n, r.Fields())
    ensures n + 10 + |r.rdata| <= |m|
    ensures Short(m, n) == r.rtype && Short(m, n + 2) == r.rclass && Long(m, n + 4) == r.ttl
    ensures Short(m, n + 8) == |r.rdata| && m[n + 10..n + 10 + |r.rdata|] == r.rdata
  {
    StandsSplit(m, n, Two(r.rtype), Two(r.rclass) + (Four(r.ttl) + (Two(|r.rdata|) + r.rdata)));
    StandsSplit(m, n + 2, Two(r.rclass), Four(r.ttl) + (Two(|r.rdata|) + r.rdata));
    StandsSplit(m, n + 4, Four(r.ttl), Two(|r.rdata|) + r.rdata);
    StandsSplit(m, n + 8, Two(|r.rdata|), r.rdata);
    TwoReads(m, n, r.rtype);
    TwoReads(m, n + 2, r.rclass);
    FourReads(m, n + 4, r.ttl);
    TwoReads(m, n + 8, |r.rdata|);
  }

  /** A record by the name in front of it and its fields. */
  lemma {:induction false} RecordBehind(m: Bytes, o: nat, name: Read, r: Record)
    requires name == Outcome(Resolve(m, o, 32)) && name.Good? && name.name == r.owner
    requires name.next + 10 + |r.rdata| <= |m|
    requires Short(m, name.next) == r.rtype && Short(m, name.next + 2) == r.rclass && Long(m, name.next + 4) == r.ttl
    requires Short(m, name.next + 8) == |r.rdata|
    requires m[name.next + 10..name.next + 10 + |r.rdata|] == r.rdata
    ensures ParseRecord(m, o) == Parsed(r, name.next + 10 + |r.rdata|)
  {
  }

  lemma {:induction false} RecordAt(m: Bytes, o: nat, name: Read, r: PlainRecord)
    requires r.Ok() && name == Outcome(Resolve(m, o, 32)) && name.Good? && name.name == Dotted(r.labels)
    requires StandsAt(m, name.next, r.Fields())
    ensures ParseRecord(m, o) == Parsed(r.Parsed(), name.next + |r.Fields()|)
  {
    RecordFields(m, name.next, r);
    RecordBehind(m, o, name, r.Parsed());
  }

  lemma {:induction false} RecordReads(m: Bytes, o: nat, r: PlainRecord)
    requires r.Ok() && StandsAt(m, o, r.Octets())
    ensures ParseRecord(m, o) == Parsed(r.Parsed(), o + |r.Octets()|)
  {
    NameInFront(m, o, r.labels, r.Fields());
    RecordAt(m, o, Good(Dotted(r.labels), o + |WriteName(r.labels)|), r);
  }

  // ---------------------------------------------------------------- sections

  /** Wherever `w` stands, `one` reads `v`. */
  ghost predicate ReadsAs<T>(one: (Bytes, nat) -> Parsed<T>, m: Bytes, w: Bytes, v: T)
  {
    forall o: nat :: StandsAt(m, o, w) ==> one(m, o) == Parsed(v, o + |w|)
  }

  /** Entries written one behind the other are read one after the other. */
  lemma {:induction false} EntriesRead<T>(one: (Bytes, nat) -> Parsed<T>, m: Bytes, o: nat,
                                          octets: seq<Bytes>, values: seq<T>)
    requires |octets| == |values| && forall k :: 0 <= k < |octets| ==> ReadsAs(one, m, octets[k], values[k])
    requires StandsAt(m, o, Concat(octets))
    ensures Entries(one, m, o, |octets|) == Parsed(values, o + |Concat(octets)|)
    decreases |octets|
  {
    if octets != [] {
      var w := octets[0];
      StandsSplit(m, o, w, Concat(octets[1..]));
      assert ReadsAs(one, m, w, values[0]);
      EntriesRead(one, m, o + |w|, octets[1..], values[1..]);
      assert values == [values[0]] + values[1..];
    }
  }

  function QuestionsOctets(qs: seq<PlainQuestion>): (r: seq<Bytes>)
    requires forall k :: 0 <= k < |qs| ==> qs[k].Ok()
    ensures |r| == |qs| && forall k :: 0 <= k < |qs| ==> r[k] == qs[k].Octets()
  {
    seq(|qs|, k requires 0 <= k < |qs| => qs[k].Octets())
  }

  function ParsedQuestions(qs: seq<PlainQuestion>): (r: seq<Question>)
    ensures |r| == |qs| && forall k :: 0 <= k < |qs| ==> r[k] == qs[k].Parsed()
  {
    seq(|qs|, k requires 0 <= k < |qs| => qs[k].Parsed())
  }

  function RecordsOctets(rs: seq<PlainRecord>): (r: seq<Bytes>)
    requires forall k :: 0 <= k < |rs| ==> rs[k].Ok()
    ensures |r| == |rs| && forall k :: 0 <= k < |rs| ==> r[k] == rs[k].Octets()
  {
    seq(|rs|, k requires 0 <= k < |rs| => rs[k].Octets())
  }

  function ParsedRecords(rs: seq<PlainRecord>): (r: seq<Record>)
    ensures |r| == |rs| && forall k :: 0 <= k < |rs| ==> r[k] == rs[k].Parsed()
  {
    seq(|rs|, k requires 0 <= k < |rs| => rs[k].Parsed())
  }

  lemma {:induction false} QuestionReadsAs(m: Bytes, q: PlainQuestion)
    requires q.Ok()
    ensures ReadsAs(ParseQuestion, m, q.Octets(), q.Parsed())
  {
    forall o: nat | StandsAt(m, o, q.Octets()) ensures ParseQuestion(m, o) == Parsed(q.Parsed(), o + |q.Octets()|) {
      QuestionReads(m, o, q);
    }
  }

  lemma {:induction false} RecordReadsAs(m: Bytes, r: PlainRecord)
    requires r.Ok()
    ensures ReadsAs(ParseRecord, m, r.Octets(), r.Parsed())
  {
    forall o: nat | StandsAt(m, o, r.Octets()) ensures ParseRecord(m, o) == Parsed(r.Parsed(), o + |r.Octets()|) {
      RecordReads(m, o, r);
    }
  }

  /** Five pieces one behind the other. */
  lemma {:induction false} FiveStand(m: Bytes, h: Bytes, q: Bytes, an: Bytes, ns: Bytes, ar: Bytes)
    requires m == h + (q + (an + (ns + ar)))
    ensures StandsAt(m, 0, h) && StandsAt(m, |h|, q) && StandsAt(m, |h| + |q|, an)
    ensures StandsAt(m, |h| + |q| + |an|, ns) && StandsAt(m, |h| + |q| + |an| + |ns|, ar)
    ensures |m| == |h| + |q| + |an| + |ns| + |ar|
  {
    assert m[0..|m|] == m;
    StandsSplit(m, 0, h, q + (an + (ns + ar)));
    StandsSplit(m, |h|, q, an + (ns + ar));
    StandsSplit(m, |h| + |q|, an, ns + ar);
    StandsSplit(m, |h| + |q| + |an|, ns, ar);
  }

  // ---------------------------------------------------------------- messages

  datatype PlainMessage = PlainMessage(id: nat, flags: nat, questions: seq<PlainQuestion>,
                                       answers: seq<PlainRecord>, authorities: seq<PlainRecord>,
                                       additionals: seq<PlainRecord>)
  {
    predicate Ok()
    {
      && id < 0x1_0000 && flags < 0x1_0000 && |questions| < 0x1_0000 && |answers| < 0x1_0000
      && |authorities| < 0x1_0000 && |additionals| < 0x1_0000
      && (forall k :: 0 <= k < |questions| ==> questions[k].Ok())
      && (forall k :: 0 <= k < |answers| ==> answers[k].Ok())
      && (forall k :: 0 <= k < |authorities| ==> authorities[k].Ok())
      && (forall k :: 0 <= k < |additionals| ==> additionals[k].Ok())
    }

    function Parsed(): Message
    {
      Message(id, flags, ParsedQuestions(questions), ParsedRecords(answers),
              ParsedRecords(authorities), ParsedRecords(additionals))
    }

    function Header(): (h: Bytes)
      requires Ok()
      ensures |h| == 12
    {
      Two(id) + Two(flags) + Two(|questions|) + Two(|answers|) + Two(|authorities|) + Two(|additionals|)
    }

    function Octets(): Bytes
      requires Ok()
    {
      Header() + (Concat(QuestionsOctets(questions))
                  + (Concat(RecordsOctets(answers))
                     + (Concat(RecordsOctets(authorities)) + Concat(RecordsOctets(additionals)))))
    }
  }

  lemma {:induction false} HeaderReads(m: Bytes, p: PlainMessage)
    requires p.Ok() && StandsAt(m, 0, p.Header())
    ensures |m| >= 12
    ensures Short(m, 0) == p.id && Short(m, 2) == p.flags && Short(m, 4) == |p.questions|
    ensures Short(m, 6) == |p.answers| && Short(m, 8) == |p.authorities| && Short(m, 10) == |p.additionals|
  {
    var h := m[0..12];
    assert h == p.Header();
    assert forall k :: 0 <= k < 12 ==> m[k] == h[k];
  }

  /** Octets and values of a section, entry by entry. */
  ghost predicate AllReadAs<T>(one: (Bytes, nat) -> Parsed<T>, m: Bytes, octets: seq<Bytes>, values: seq<T>)
  {
    |octets| == |values| && forall k :: 0 <= k < |octets| ==> ReadsAs(one, m, octets[k], values[k])
  }

  lemma {:induction false} SectionReads<T>(one: (Bytes, nat) -> Parsed<T>, m: Bytes, o: nat, end: nat,
                                           octets: seq<Bytes>, values: seq<T>, w: Bytes)
    requires AllReadAs(one, m, octets, values) && w == Concat(octets) && StandsAt(m, o, w) && end == o + |w|
    ensures Entries(one, m, o, |octets|) == Parsed(values, end)
  {
    EntriesRead(one, m, o, octets, values);
  }

  /** A message by its header and its four sections, whatever reads their entries. */
  lemma {:induction false} MessageFrom(question: (Bytes, nat) -> Parsed<Question>,
                                       record: (Bytes, nat) -> Parsed<Record>, m: Bytes, p: Message,
                                       a: nat, b: nat, c: nat)
    requires |m| >= 12 && Short(m, 0) == p.id && Short(m, 2) == p.flags
    requires Entries(question, m, 12, Short(m, 4)) == Parsed(p.questions, a)
    requires Entries(record, m, a, Short(m, 6)) == Parsed(p.answers, b)
    requires Entries(record, m, b, Short(m, 8)) == Parsed(p.authorities, c)
    requires Entries(record, m, c, Short(m, 10)) == Parsed(p.additionals, |m|)
    ensures MessageBy(question, record, m) == Some(p)
  {
  }

  /** The octets of a message, piece by piece. */
  datatype Layout = Layout(h: Bytes, q: Bytes, an: Bytes, ns: Bytes, ar: Bytes)
  {
    function All(): Bytes { h + (q + (an + (ns + ar))) }
  }

  lemma {:induction false} SectionsRead(question: (Bytes, nat) -> Parsed<Question>,
                                        record: (Bytes, nat) -> Parsed<Record>, m: Bytes, l: Layout, p: Message,
                                        q: seq<Bytes>, an: seq<Bytes>, ns: seq<Bytes>, ar: seq<Bytes>)
    requires m == l.All() && |l.h| == 12 && Short(m, 0) == p.id && Short(m, 2) == p.flags
    requires Short(m, 4) == |q| && Short(m, 6) == |an| && Short(m, 8) == |ns| && Short(m, 10) == |ar|
    requires AllReadAs(question, m, q, p.questions) && AllReadAs(record, m, an, p.answers)
    requires AllReadAs(record, m, ns, p.authorities) && AllReadAs(record, m, ar, p.additionals)
    requires l.q == Concat(q) && l.an == Concat(an) && l.ns == Concat(ns) && l.ar == Concat(ar)
    ensures MessageBy(question, record, m) == Some(p)
  {
    FiveStand(m, l.h, l.q, l.an, l.ns, l.ar);
    var a := 12 + |l.q|;
    var b := a + |l.an|;
    var c := b + |l.ns|;
    SectionReads(question, m, 12, a, q, p.questions, l.q);
    SectionReads(record, m, a, b, an, p.answers, l.an);
    SectionReads(record, m, b, c, ns, p.authorities, l.ns);
    SectionReads(record, m, c, |m|, ar, p.additionals, l.ar);
    MessageFrom(question, record, m, p, a, b, c);
  }

  lemma {:induction false} QuestionsReadAs(m: Bytes, qs: seq<PlainQuestion>)
    requires forall k :: 0 <= k < |qs| ==> qs[k].Ok()
    ensures AllReadAs(ParseQuestion, m, QuestionsOctets(qs), ParsedQuestions(qs))
  {
    forall k | 0 <= k < |qs| ensures ReadsAs(ParseQuestion, m, QuestionsOctets(qs)[k], ParsedQuestions(qs)[k]) {
      QuestionReadsAs(m, qs[k]);
    }
  }

  lemma {:induction false} RecordsReadAs(m: Bytes, rs: seq<PlainRecord>)
    requires forall k :: 0 <= k < |rs| ==> rs[k].Ok()
    ensures AllReadAs(ParseRecord, m, RecordsOctets(rs), ParsedRecords(rs))
  {
    forall k | 0 <= k < |rs| ensures ReadsAs(ParseRecord, m, RecordsOctets(rs)[k], ParsedRecords(rs)[k]) {
      RecordReadsAs(m, rs[k]);
    }
  }

  /** Every message the writer writes is the message the parser reads. */
  lemma {:induction false} ParserInvertsWriter(p: PlainMessage)
    requires p.Ok()
    ensures ParseMessage(p.Octets()) == Some(p.Parsed())
  {
    var m := p.Octets();
    var q, an := QuestionsOctets(p.questions), RecordsOctets(p.answers);
    var ns, ar := RecordsOctets(p.authorities), RecordsOctets(p.additionals);
    var l := Layout(p.Header(), Concat(q), Concat(an), Concat(ns), Concat(ar));
    assert m == l.All();
    FiveStand(m, l.h, l.q, l.an, l.ns, l.ar);
    HeaderReads(m, p);
    AllSectionsReadAs(m, p);
    SectionsRead(ParseQuestion, ParseRecord, m, l, p.Parsed(), q, an, ns, ar);
  }

  lemma {:induction false} AllSectionsReadAs(m: Bytes, p: PlainMessage)
    requires p.Ok()
    ensures AllReadAs(ParseQuestion, m, QuestionsOctets(p.questions), ParsedQuestions(p.questions))
    ensures AllReadAs(ParseRecord, m, RecordsOctets(p.answers), ParsedRecords(p.answers))
    ensures AllReadAs(ParseRecord, m, RecordsOctets(p.authorities), ParsedRecords(p.authorities))
    ensures AllReadAs(ParseRecord, m, RecordsOctets(p.additionals), ParsedRecords(p.additionals))
  {
    QuestionsReadAs(m, p.questions);
    RecordsReadAs(m, p.answers);
    RecordsReadAs(m, p.authorities);
    RecordsReadAs(m, p.additionals);
  }
}
