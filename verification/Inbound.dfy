/** Reply by email: resolve the capability, check the sender, post each message once, and post only
    what stands above the separator. */
module Inbound {
  import opened Wrappers
  import Text

  const REPLY_SEPARATOR := "=== reply above this line ==="
  const MAX_MESSAGE_BYTES := 256 * 1024
  const MAX_PART_DEPTH := 20
  const MAX_BODY_CHARS := 2000
  const RATE_LIMIT_PER_HOUR := 20
  const MALFORMED_ROWS_PER_HOUR := 50

  /** One raw message: its size and declared nesting, and what the parser makes of it, if anything.
      `body` is the plain text and `lines` what it splits into. */
  datatype Mail = Mail(size: nat, depth: nat, parsed: Option<Parsed>)
  datatype Parsed = Parsed(capability: string, from_: string, messageId: string, body: string, lines: seq<string>)

  datatype Address = Address(member: nat, post: nat)

  /** What the rest of the product answers at the time a message is processed: which capabilities
      resolve, each member's own address, whether a member may comment on a post now, which lines a
      mail client writes above a quotation, which characters are printable, the cache counters, and
      whether the process dies once the ledger row is in. */
  datatype Context = Context(
    resolve: string -> Option<Address>, addressOf: nat -> string, mayComment: (nat, nat) -> bool,
    isAttribution: string -> bool, isPrintable: char -> bool, rateUsed: nat, malformedUsed: nat,
    dies: bool)

  datatype Reason = FromMismatch | NoSeparator | Malformed | RateLimited

  datatype Outcome = Posted | Bounced | Quarantined | Duplicate | Died

  datatype Comment = Comment(key: string, capability: string, member: nat, post: nat, body: string)

  datatype State = State(ledger: set<(string, string)>, quarantine: seq<Reason>, comments: seq<Comment>)

  // ----- What may be posted -----

  predicate Contains(line: string, part: string) {
    exists i | 0 <= i <= |line| :: part <= line[i..]
  }

  predicate IsDroppable(cx: Context, line: string) {
    cx.isAttribution(Text.Strip(line)) || Text.Strip(line) == ""
  }

  /** The number of lines above the first line holding the separator. */
  function LinesAbove(lines: seq<string>): (n: Option<nat>)
    ensures n.Some? ==> n.value < |lines| && Contains(lines[n.value], REPLY_SEPARATOR)
                        && forall i | 0 <= i < n.value :: !Contains(lines[i], REPLY_SEPARATOR)
    ensures n.None? ==> forall i | 0 <= i < |lines| :: !Contains(lines[i], REPLY_SEPARATOR)
  {
    if lines == [] then None
    else if Contains(lines[0], REPLY_SEPARATOR) then Some(0)
    else
      var rest := LinesAbove(lines[1..]);
      assert forall i | 0 < i < |lines| :: lines[i] == lines[1..][i - 1];
      if rest.None? then None else Some(rest.value + 1)
  }

  /** Trailing blank and attribution lines dropped, and no others. */
  function Trimmed(cx: Context, kept: seq<string>): (r: seq<string>)
    ensures r <= kept
    ensures r != [] ==> !IsDroppable(cx, r[|r| - 1])
    ensures forall i | |r| <= i < |kept| :: IsDroppable(cx, kept[i])
  {
    if kept != [] && IsDroppable(cx, kept[|kept| - 1]) then Trimmed(cx, kept[..|kept| - 1]) else kept
  }

  function StripBelow(cx: Context, lines: seq<string>): Option<string> {
    var n := LinesAbove(lines);
    if n.None? then None else Some(Text.Strip(Text.Join(Trimmed(cx, lines[..n.value]), '\n')))
  }

  function StripControl(cx: Context, text: string): (r: string)
    ensures |r| <= |text|
    ensures forall c | c in r :: c == '\n' || c == '\t' || cx.isPrintable(c)
  {
    if text == "" then ""
    else (if text[0] == '\n' || text[0] == '\t' || cx.isPrintable(text[0]) then [text[0]] else "")
         + StripControl(cx, text[1..])
  }

  function Take(s: string, n: nat): string { if |s| <= n then s else s[..n] }

  function CommentBody(cx: Context, above: string): string {
    Text.Strip(Take(StripControl(cx, above), MAX_BODY_CHARS))
  }

  /** What would be posted of these lines: nothing where there is no separator to cut at. */
  function ReplyBody(cx: Context, lines: seq<string>): string {
    var above := StripBelow(cx, lines);
    if above.None? then "" else CommentBody(cx, above.value)
  }

  /** The Message-ID, or the start of the body for a client that sends none. */
  function LedgerKey(m: Parsed): string {
    if Text.Strip(m.messageId) != "" then Text.Strip(m.messageId) else Take(m.body, 1000)
  }

  // ----- One message -----

  datatype Result = Result(outcome: Outcome, state: State)

  function Quarantine(s: State, why: Reason): Result {
    Result(Quarantined, s.(quarantine := s.quarantine + [why]))
  }

  /** A malformed message is always refused; only its row is rationed. */
  function QuarantineMalformed(s: State, cx: Context): Result {
    if cx.malformedUsed >= MALFORMED_ROWS_PER_HOUR then Result(Quarantined, s) else Quarantine(s, Malformed)
  }

  function Processed(s: State, mail: Mail, cx: Context): Result {
    if mail.size > MAX_MESSAGE_BYTES || mail.depth > MAX_PART_DEPTH || mail.parsed.None? then
      QuarantineMalformed(s, cx)
    else
      var m := mail.parsed.value;
      var address := if m.capability == "" then None else cx.resolve(m.capability);
      if address.None? then Result(Bounced, s)
      else if cx.rateUsed >= RATE_LIMIT_PER_HOUR then Quarantine(s, RateLimited)
      else if m.from_ == "" || Text.Lower(m.from_) != Text.Lower(cx.addressOf(address.value.member)) then
        Quarantine(s, FromMismatch)
      else
        var entry := (LedgerKey(m), m.capability);
        if entry in s.ledger then Result(Duplicate, s)
        else
          var noted := s.(ledger := s.ledger + {entry});
          var body := ReplyBody(cx, m.lines);
          if cx.dies then Result(Died, noted)
          else if body == "" then Quarantine(noted, NoSeparator)
          else if !cx.mayComment(address.value.member, address.value.post) then Result(Bounced, noted)
          else
            Result(Posted, noted.(comments := noted.comments +
              [Comment(entry.0, entry.1, address.value.member, address.value.post, body)]))
  }

  // ----- Every poll and re-poll -----

  datatype Delivery = Delivery(mail: Mail, cx: Context)

  function ProcessedAll(s: State, deliveries: seq<Delivery>): State {
    if deliveries == [] then s
    else
      var last := deliveries[|deliveries| - 1];
      Processed(ProcessedAll(s, deliveries[..|deliveries| - 1]), last.mail, last.cx).state
  }

  /** What became of each delivery, in order. */
  function Outcomes(s: State, deliveries: seq<Delivery>): (r: seq<Outcome>)
    ensures |r| == |deliveries|
  {
    if deliveries == [] then []
    else
      var rest, last := deliveries[..|deliveries| - 1], deliveries[|deliveries| - 1];
      Outcomes(s, rest) + [Processed(ProcessedAll(s, rest), last.mail, last.cx).outcome]
  }

  /** At most one comment per (message, capability), each noted in the ledger, each attributed by its
      capability and cut from lines above the first separator of a message that was delivered. */
  ghost predicate CameFrom(c: Comment, d: Delivery) {
    && d.mail.parsed.Some?
    && var m := d.mail.parsed.value;
    && c.key == LedgerKey(m) && c.capability == m.capability
    && d.cx.resolve(m.capability) == Some(Address(c.member, c.post))
    && d.cx.mayComment(c.member, c.post)
    && 0 < |c.body| <= MAX_BODY_CHARS
    && exists sep: nat, n: nat :: IsCut(d.cx, m.lines, sep, n) && c.body == CutBody(d.cx, m.lines, n)
  }

  /** `sep` is the first separator line; between line `n` and it stand only blanks and attributions, and
      line `n` is where those begin. */
  predicate IsCut(cx: Context, lines: seq<string>, sep: nat, n: nat) {
    && n <= sep < |lines| && Contains(lines[sep], REPLY_SEPARATOR)
    && (forall i | 0 <= i < sep :: !Contains(lines[i], REPLY_SEPARATOR))
    && (forall i | n <= i < sep :: IsDroppable(cx, lines[i]))
    && (n > 0 ==> !IsDroppable(cx, lines[n - 1]))
  }

  function CutBody(cx: Context, lines: seq<string>, n: nat): string
    requires n <= |lines|
  {
    CommentBody(cx, Text.Strip(Text.Join(lines[..n], '\n')))
  }

  lemma CutIsUnique(cx: Context, lines: seq<string>, sep: nat, n: nat, sep': nat, n': nat)
    requires IsCut(cx, lines, sep, n) && IsCut(cx, lines, sep', n')
    ensures sep == sep' && n == n'
  {
    assert !(sep < sep') && !(sep' < sep);
  }

  /** What is posted is what stands above the cut; without a separator there is no cut. */
  lemma ReplyBodyIsTheCut(cx: Context, lines: seq<string>)
    ensures |ReplyBody(cx, lines)| <= MAX_BODY_CHARS
    ensures forall sep: nat, n: nat :: IsCut(cx, lines, sep, n) ==> ReplyBody(cx, lines) == CutBody(cx, lines, n)
    ensures ReplyBody(cx, lines) != "" ==> exists sep: nat, n: nat :: IsCut(cx, lines, sep, n)
  {
    if LinesAbove(lines).Some? {
      var above := LinesAbove(lines).value;
      var kept := Trimmed(cx, lines[..above]);
      assert kept == lines[..|kept|];
      assert forall i | |kept| <= i < above :: lines[i] == lines[..above][i];
      assert IsCut(cx, lines, above, |kept|);
      forall sep: nat, n: nat | IsCut(cx, lines, sep, n) ensures n == |kept| {
        CutIsUnique(cx, lines, sep, n, above, |kept|);
      }
    }
  }

  ghost predicate Inv(s: State, deliveries: seq<Delivery>) {
    && (forall i, j | 0 <= i < j < |s.comments| ::
          (s.comments[i].key, s.comments[i].capability) != (s.comments[j].key, s.comments[j].capability))
    && (forall c | c in s.comments :: (c.key, c.capability) in s.ledger)
    && (forall c | c in s.comments :: exists d :: d in deliveries && CameFrom(c, d))
  }

  /** The checks before the words: a message small and flat enough to parse, a live capability under its
      hourly ceiling, the sender's own address, and a first delivery. */
  predicate GetsThrough(s: State, mail: Mail, cx: Context) {
    && mail.size <= MAX_MESSAGE_BYTES && mail.depth <= MAX_PART_DEPTH && mail.parsed.Some?
    && var m := mail.parsed.value;
    && m.capability != "" && cx.resolve(m.capability).Some? && cx.rateUsed < RATE_LIMIT_PER_HOUR
    && m.from_ != "" && Text.SameMailbox(m.from_, cx.addressOf(cx.resolve(m.capability).value.member))
    && (LedgerKey(m), m.capability) !in s.ledger
  }

  /** A reply is posted exactly when it gets through those, the process lives, something is left of what
      stands above its first separator, and its sender may comment on that post now. */
  lemma PostedExactly(s: State, mail: Mail, cx: Context)
    ensures Processed(s, mail, cx).outcome == Posted <==>
            && GetsThrough(s, mail, cx) && !cx.dies
            && var m := mail.parsed.value;
            && cx.mayComment(cx.resolve(m.capability).value.member, cx.resolve(m.capability).value.post)
            && exists sep: nat, n: nat :: IsCut(cx, m.lines, sep, n) && CutBody(cx, m.lines, n) != ""
  {
    if mail.parsed.Some? {
      ReplyBodyIsTheCut(cx, mail.parsed.value.lines);
      FromIsCompared(mail.parsed.value, cx);
    }
  }

  lemma FromIsCompared(m: Parsed, cx: Context)
    ensures cx.resolve(m.capability).Some? ==>
              var address := cx.addressOf(cx.resolve(m.capability).value.member);
              Text.Lower(m.from_) == Text.Lower(address) <==> Text.SameMailbox(m.from_, address)
  {
    if cx.resolve(m.capability).Some? {
      Text.LowerExactly(m.from_, cx.addressOf(cx.resolve(m.capability).value.member));
    }
  }

  /** What becomes of everything else, and what is recorded of it. A dead capability, and a post its sender
      may not comment on, bounce alike and leave no row; a repeat is a duplicate; the rest is quarantined
      for its reason, the malformed only while the hour's budget lasts. The ledger takes exactly what gets
      through the checks. */
  lemma RefusedExactly(s: State, mail: Mail, cx: Context)
    ensures var r := Processed(s, mail, cx);
            var malformed := mail.size > MAX_MESSAGE_BYTES || mail.depth > MAX_PART_DEPTH || mail.parsed.None?;
            && (malformed ==>
                  r.outcome == Quarantined && r.state == if cx.malformedUsed >= MALFORMED_ROWS_PER_HOUR then s
                                                         else s.(quarantine := s.quarantine + [Malformed]))
            && (!malformed ==>
                  var m := mail.parsed.value;
                  var dead := m.capability == "" || cx.resolve(m.capability).None?;
                  && (dead ==> r == Result(Bounced, s))
                  && (!dead && cx.rateUsed >= RATE_LIMIT_PER_HOUR ==>
                        r == Result(Quarantined, s.(quarantine := s.quarantine + [RateLimited])))
                  && (!dead && cx.rateUsed < RATE_LIMIT_PER_HOUR ==>
                        var address := cx.addressOf(cx.resolve(m.capability).value.member);
                        var own := m.from_ != "" && Text.SameMailbox(m.from_, address);
                        && (!own ==> r == Result(Quarantined, s.(quarantine := s.quarantine + [FromMismatch])))
                        && (own && (LedgerKey(m), m.capability) in s.ledger ==> r == Result(Duplicate, s))))
            && (GetsThrough(s, mail, cx) ==>
                  && r.outcome in {Died, Quarantined, Bounced, Posted}
                  && r.state.ledger == s.ledger + {(LedgerKey(mail.parsed.value), mail.parsed.value.capability)})
  {
    if mail.parsed.Some? {
      FromIsCompared(mail.parsed.value, cx);
    }
  }

  /** And of what gets through and is not posted: quarantined where no words are left above a separator, and
      otherwise a bounce, because the sender may not comment there now. */
  lemma NotPostedExactly(s: State, mail: Mail, cx: Context)
    requires GetsThrough(s, mail, cx) && !cx.dies
    ensures var r, m := Processed(s, mail, cx), mail.parsed.value;
            var words := exists sep: nat, n: nat :: IsCut(cx, m.lines, sep, n) && CutBody(cx, m.lines, n) != "";
            && (!words ==> r.outcome == Quarantined && r.state.quarantine == s.quarantine + [NoSeparator])
            && (words && r.outcome != Posted ==> r.outcome == Bounced && r.state.quarantine == s.quarantine)
  {
    ReplyBodyIsTheCut(cx, mail.parsed.value.lines);
    FromIsCompared(mail.parsed.value, cx);
  }

  /** Messages with a Message-ID are told apart by it, whatever else they say; the others by their first
      thousand characters. */
  lemma KeysTellApart(m: Parsed, n: Parsed)
    ensures Text.Strip(m.messageId) != "" && Text.Strip(n.messageId) != "" ==>
              (LedgerKey(m) == LedgerKey(n) <==> Text.Strip(m.messageId) == Text.Strip(n.messageId))
    ensures Text.Strip(m.messageId) == "" && Text.Strip(n.messageId) == "" && |m.body| <= 1000 && |n.body| <= 1000 ==>
              (LedgerKey(m) == LedgerKey(n) <==> m.body == n.body)
    ensures Text.Strip(m.messageId) == "" && |m.body| >= 1000 ==> LedgerKey(m) == m.body[..1000]
  {
  }

  /** A separator counts wherever it stands in its line, a quoting client's prefix in front of it included. */
  lemma ContainsExactly(line: string, part: string)
    ensures Contains(line, part) <==> exists before, after :: line == before + part + after
  {
    if Contains(line, part) {
      var i :| 0 <= i <= |line| && part <= line[i..];
      assert line == line[..i] + part + line[i..][|part|..];
    }
    if before, after :| line == before + part + after {
      assert line[|before|..] == part + after;
    }
  }

  /** The lines between the words and the separator that go: those with nothing but space in them, and those a
      mail client puts above a quotation, indented or not. */
  lemma DroppedLinesExactly(cx: Context, line: string)
    ensures IsDroppable(cx, line) <==>
            (forall c | c in line :: Text.IsSpace(c)) || cx.isAttribution(Text.Strip(line))
  {
    var before, after := Text.StripDropsOnlySpace(line);
    if Text.Strip(line) != "" {
      assert Text.Strip(line)[0] in line;
    }
  }

  predicate MayStay(cx: Context, c: char) { c == '\n' || c == '\t' || cx.isPrintable(c) }

  /** Control characters go and the others stay, each in its place: a text is cleaned piece by piece, ... */
  lemma {:induction false} ControlGoesPieceByPiece(cx: Context, a: string, b: string)
    ensures StripControl(cx, a + b) == StripControl(cx, a) + StripControl(cx, b)
  {
    if a == "" {
      assert a + b == b;
    } else {
      assert (a + b)[1..] == a[1..] + b;
      ControlGoesPieceByPiece(cx, a[1..], b);
    }
  }

  /** ... a piece with nothing to clean stays, and one that is all control characters goes. */
  lemma {:induction false} ControlGoesAndTheRestStays(cx: Context, a: string)
    ensures (forall i | 0 <= i < |a| :: MayStay(cx, a[i])) ==> StripControl(cx, a) == a
    ensures (forall i | 0 <= i < |a| :: !MayStay(cx, a[i])) ==> StripControl(cx, a) == ""
  {
    if a != "" {
      assert a == [a[0]] + a[1..];
      ControlGoesAndTheRestStays(cx, a[1..]);
    }
  }

  /** An ordinary reply is posted whole, word for word. */
  lemma PlainReplyIsPostedWhole(cx: Context, lines: seq<string>, n: nat)
    requires n <= |lines|
    requires var text := Text.Strip(Text.Join(lines[..n], '\n'));
             |text| <= MAX_BODY_CHARS && forall i | 0 <= i < |text| :: MayStay(cx, text[i])
    ensures CutBody(cx, lines, n) == Text.Strip(Text.Join(lines[..n], '\n'))
  {
    var text := Text.Strip(Text.Join(lines[..n], '\n'));
    ControlGoesAndTheRestStays(cx, text);
    Text.StrippedStays(text);
  }

  lemma PostedCameFrom(s: State, d: Delivery)
    requires Processed(s, d.mail, d.cx).outcome == Posted
    ensures var t := Processed(s, d.mail, d.cx).state;
            && t.comments != [] && t.comments[..|t.comments| - 1] == s.comments
            && CameFrom(t.comments[|t.comments| - 1], d)
  {
    ReplyBodyIsTheCut(d.cx, d.mail.parsed.value.lines);
  }

  lemma OtherwiseNothingIsPosted(s: State, d: Delivery)
    requires Processed(s, d.mail, d.cx).outcome != Posted
    ensures var t := Processed(s, d.mail, d.cx).state; t.comments == s.comments && s.ledger <= t.ledger
  {
  }

  lemma StillCameFrom(s: State, deliveries: seq<Delivery>, d: Delivery)
    requires Inv(s, deliveries)
    ensures forall c | c in s.comments :: exists e :: e in deliveries + [d] && CameFrom(c, e)
  {
    forall c | c in s.comments ensures exists e :: e in deliveries + [d] && CameFrom(c, e) {
      var e :| e in deliveries && CameFrom(c, e);
      assert e in deliveries + [d];
    }
  }

  lemma PostingKeepsInv(s: State, deliveries: seq<Delivery>, d: Delivery, t: State, c: Comment)
    requires Inv(s, deliveries) && CameFrom(c, d) && (c.key, c.capability) !in s.ledger
    requires t.comments == s.comments + [c] && t.ledger == s.ledger + {(c.key, c.capability)}
    ensures Inv(t, deliveries + [d])
  {
    StillCameFrom(s, deliveries, d);
    assert d in deliveries + [d];
    forall e | e in s.comments ensures (e.key, e.capability) != (c.key, c.capability) {
      assert (e.key, e.capability) in s.ledger;
    }
  }

  lemma ProcessingKeepsInv(s: State, deliveries: seq<Delivery>, d: Delivery)
    requires Inv(s, deliveries)
    ensures Inv(Processed(s, d.mail, d.cx).state, deliveries + [d])
  {
    var t := Processed(s, d.mail, d.cx).state;
    if Processed(s, d.mail, d.cx).outcome == Posted {
      PostedIsNew(s, d);
      PostingKeepsInv(s, deliveries, d, t, t.comments[|s.comments|]);
    } else {
      OtherwiseNothingIsPosted(s, d);
      StillCameFrom(s, deliveries, d);
    }
  }

  lemma PostedIsNew(s: State, d: Delivery)
    requires Processed(s, d.mail, d.cx).outcome == Posted
    ensures var t := Processed(s, d.mail, d.cx).state;
            && |t.comments| == |s.comments| + 1
            && var c := t.comments[|s.comments|];
            && t.comments == s.comments + [c] && CameFrom(c, d)
            && (c.key, c.capability) !in s.ledger && t.ledger == s.ledger + {(c.key, c.capability)}
  {
    PostedCameFrom(s, d);
  }

  /** However often and in whatever order messages come round again, no reply is posted twice, and
      every body is what its sender wrote above the separator. */
  lemma {:induction false} NothingIsPostedTwice(deliveries: seq<Delivery>)
    ensures Inv(ProcessedAll(State({}, [], []), deliveries), deliveries)
  {
    if deliveries != [] {
      var last := |deliveries| - 1;
      NothingIsPostedTwice(deliveries[..last]);
      ProcessingKeepsInv(ProcessedAll(State({}, [], []), deliveries[..last]), deliveries[..last], deliveries[last]);
      assert deliveries[..last] + [deliveries[last]] == deliveries;
    }
  }

  /** A message whose ledger entry is there posts nothing and changes nothing but, at most, the
      quarantine. */
  lemma RepollPostsNothing(s: State, d: Delivery)
    requires d.mail.parsed.Some? && (LedgerKey(d.mail.parsed.value), d.mail.parsed.value.capability) in s.ledger
    ensures var r := Processed(s, d.mail, d.cx);
            r.outcome != Posted && r.state.comments == s.comments && r.state.ledger == s.ledger
  {
  }

  lemma LedgerIsForGood(s: State, d: Delivery, entry: (string, string))
    requires entry in s.ledger
    ensures var t := Processed(s, d.mail, d.cx).state;
            entry in t.ledger && forall c | c in t.comments && (c.key, c.capability) == entry :: c in s.comments
  {
    if Processed(s, d.mail, d.cx).outcome == Posted {
      PostedIsNew(s, d);
    } else {
      OtherwiseNothingIsPosted(s, d);
    }
  }

  lemma {:induction false} LedgerIsForGoodInEveryRun(s: State, later: seq<Delivery>, entry: (string, string))
    requires entry in s.ledger
    ensures var t := ProcessedAll(s, later);
            entry in t.ledger && forall c | c in t.comments && (c.key, c.capability) == entry :: c in s.comments
  {
    if later != [] {
      var last := |later| - 1;
      LedgerIsForGoodInEveryRun(s, later[..last], entry);
      LedgerIsForGood(ProcessedAll(s, later[..last]), later[last], entry);
    }
  }

  /** A process that dies between the ledger row and the comment has lost the reply for good: the row
      commits by itself, and however often the message comes round again it is a duplicate. */
  lemma CrashLosesTheReply(s: State, deliveries: seq<Delivery>, d: Delivery, later: seq<Delivery>)
    requires Inv(s, deliveries) && GetsThrough(s, d.mail, d.cx) && d.cx.dies
    ensures var m := d.mail.parsed.value;
            forall c | c in ProcessedAll(Processed(s, d.mail, d.cx).state, later).comments ::
              (c.key, c.capability) != (LedgerKey(m), m.capability)
  {
    var m := d.mail.parsed.value;
    LedgerIsForGoodInEveryRun(Processed(s, d.mail, d.cx).state, later, (LedgerKey(m), m.capability));
    assert forall c | c in s.comments :: (c.key, c.capability) in s.ledger;
  }

  // ----- The loops -----

  /** Everything above the first separator line, minus what the client put between, or None. */
  method StripBelowSeparator(cx: Context, lines: seq<string>) returns (above: Option<string>)
    ensures above == StripBelow(cx, lines)
  {
    var lineno := 0;
    while lineno < |lines|
      invariant lineno <= |lines| && forall i | 0 <= i < lineno :: !Contains(lines[i], REPLY_SEPARATOR)
    {
      if Contains(lines[lineno], REPLY_SEPARATOR) {
        FirstIsUnique(lines, lineno);
        var kept := lines[..lineno];
        while kept != [] && IsDroppable(cx, kept[|kept| - 1])
          invariant Trimmed(cx, kept) == Trimmed(cx, lines[..lineno])
          decreases |kept|
        {
          kept := kept[..|kept| - 1];
        }
        return Some(Text.Strip(Text.Join(kept, '\n')));
      }
      lineno := lineno + 1;
    }
    return None;
  }

  lemma FirstIsUnique(lines: seq<string>, n: nat)
    requires n < |lines| && Contains(lines[n], REPLY_SEPARATOR)
    requires forall i | 0 <= i < n :: !Contains(lines[i], REPLY_SEPARATOR)
    ensures LinesAbove(lines) == Some(n)
  {
  }

  /** The in-memory source: `acknowledge` removes the first equal message. */
  class MailSource {
    var pending: seq<Mail>
    var acknowledged: seq<Mail>

    method Acknowledge(raw: Mail)
      requires raw in pending
      modifies this
      ensures acknowledged == old(acknowledged) + [raw]
      ensures multiset(pending) == multiset(old(pending)) - multiset{raw}
      ensures old(pending)[0] == raw ==> pending == old(pending)[1..]
    {
      var k := 0;
      while pending[k] != raw
        invariant 0 <= k < |pending| && raw !in pending[..k]
        invariant pending == old(pending) && acknowledged == old(acknowledged)
        decreases |pending| - k
      {
        k := k + 1;
      }
      assert pending == pending[..k] + [raw] + pending[k + 1..];
      pending := pending[..k] + pending[k + 1..];
      acknowledged := acknowledged + [raw];
    }
  }

  class Pipeline {
    var s: State

    /** One message, acknowledged unless the process dies over it. */
    method ProcessNext(source: MailSource, cx: Context) returns (outcome: Outcome)
      requires source.pending != []
      modifies this, source
      ensures Processed(old(s), old(source.pending)[0], cx) == Result(outcome, s)
      ensures outcome == Died ==>
                source.pending == old(source.pending) && source.acknowledged == old(source.acknowledged)
      ensures outcome != Died ==>
                && source.pending == old(source.pending)[1..]
                && source.acknowledged == old(source.acknowledged) + [old(source.pending)[0]]
    {
      var raw := source.pending[0];
      var r := Processed(s, raw, cx);
      s, outcome := r.state, r.outcome;
      if outcome != Died {
        source.Acknowledge(raw);
      }
    }

    /** Everything the source holds, each message acknowledged whatever became of it - unless the process
        dies, over the first message not acknowledged. */
    method Poll(source: MailSource, contexts: seq<Context>) returns (results: seq<Outcome>, done: nat)
      requires |contexts| == |source.pending|
      modifies this, source
      ensures done <= |old(source.pending)|
      ensures source.pending == old(source.pending)[done..]
      ensures source.acknowledged == old(source.acknowledged) + old(source.pending)[..done]
      ensures results == Outcomes(old(s), Deliveries(old(source.pending)[..done], contexts[..done]))
      ensures Died !in results
      ensures var all := Deliveries(old(source.pending), contexts);
              if done == |all| then s == ProcessedAll(old(s), all)
              else s == ProcessedAll(old(s), all[..done + 1]) && Outcomes(old(s), all[..done + 1])[done] == Died
    {
      results, done := [], 0;
      var raws := source.pending;
      ghost var all := Deliveries(raws, contexts);
      while done < |raws|
        invariant done <= |raws|
        invariant source.pending == raws[done..] && source.acknowledged == old(source.acknowledged) + raws[..done]
        invariant Polled(old(s), s, all, done, results)
      {
        OneMoreDelivery(old(s), all, done);
        ghost var before := s;
        var outcome := ProcessNext(source, contexts[done]);
        if outcome == Died {
          DeliveriesCut(raws, contexts, done);
          return;
        }
        PolledNext(old(s), before, all, done, results, outcome, s);
        results := results + [outcome];
        assert raws[..done + 1] == raws[..done] + [raws[done]];
        done := done + 1;
      }
      DeliveriesCut(raws, contexts, done);
      assert all[..done] == all;
    }
  }

  /** The first `done` deliveries have been processed, and the process lived. */
  predicate Polled(start: State, s: State, all: seq<Delivery>, done: nat, results: seq<Outcome>) {
    && done <= |all| && s == ProcessedAll(start, all[..done])
    && results == Outcomes(start, all[..done]) && Died !in results
  }

  lemma PolledNext(start: State, s: State, all: seq<Delivery>, done: nat, results: seq<Outcome>, outcome: Outcome,
                   after: State)
    requires done < |all| && Polled(start, s, all, done, results) && outcome != Died
    requires Processed(s, all[done].mail, all[done].cx) == Result(outcome, after)
    ensures Polled(start, after, all, done + 1, results + [outcome])
  {
    OneMoreDelivery(start, all, done);
  }

  lemma OneMoreDelivery(s: State, all: seq<Delivery>, k: nat)
    requires k < |all|
    ensures var r := Processed(ProcessedAll(s, all[..k]), all[k].mail, all[k].cx);
            ProcessedAll(s, all[..k + 1]) == r.state && Outcomes(s, all[..k + 1]) == Outcomes(s, all[..k]) + [r.outcome]
  {
    assert all[..k + 1][..k] == all[..k];
  }

  lemma DeliveriesCut(raws: seq<Mail>, contexts: seq<Context>, k: nat)
    requires |raws| == |contexts| && k <= |raws|
    ensures Deliveries(raws, contexts)[..k] == Deliveries(raws[..k], contexts[..k])
  {
  }

  function Deliveries(raws: seq<Mail>, contexts: seq<Context>): (d: seq<Delivery>)
    requires |raws| == |contexts|
    ensures |d| == |raws|
  {
    seq(|raws|, i requires 0 <= i < |raws| => Delivery(raws[i], contexts[i]))
  }
}
