/**
 * The texts behind server-derived idempotency keys and what they determine.  SHA-256 is
 * a parameter that is assumed injective.
 */
module IdempotencyKeys {
  import opened Wrappers
  import opened AmountText
  import CreditProtocol

  type Hash = string -> string

  /** The assumption on the hash: no two texts share a digest. */
  ghost predicate Injective(hash: Hash) {
    forall a, b :: hash(a) == hash(b) ==> a == b
  }

  // ---------- Lines ----------

  /** Text before the first newline and text after it. */
  function SplitFirst(text: string): Option<(string, string)> {
    if text == "" then None
    else if text[0] == '\n' then Some(("", text[1..]))
    else
      var rest := SplitFirst(text[1..]);
      if rest.None? then None else Some(([text[0]] + rest.value.0, rest.value.1))
  }

  /** Text before the last newline and text after it. */
  function SplitLast(text: string): Option<(string, string)> {
    if text == "" then None
    else
      var n := |text| - 1;
      if text[n] == '\n' then Some((text[..n], ""))
      else
        var rest := SplitLast(text[..n]);
        if rest.None? then None else Some((rest.value.0, rest.value.1 + [text[n]]))
  }

  function Lines(first: string, rest: string): string {
    first + ("\n" + rest)
  }

  lemma {:induction false} SplitFirstBack(first: string, rest: string)
    requires '\n' !in first
    ensures SplitFirst(Lines(first, rest)) == Some((first, rest))
  {
    var text := Lines(first, rest);
    if first == "" {
      assert text[1..] == rest;
    } else {
      assert text[1..] == Lines(first[1..], rest);
      SplitFirstBack(first[1..], rest);
      assert [first[0]] + first[1..] == first;
    }
  }

  lemma {:induction false} SplitLastBack(rest: string, last: string)
    requires '\n' !in last
    ensures SplitLast(Lines(rest, last)) == Some((rest, last))
  {
    var text := Lines(rest, last);
    var n := |text| - 1;
    if last == "" {
      assert text[..n] == rest;
    } else {
      var m := |last| - 1;
      assert text[..n] == Lines(rest, last[..m]);
      SplitLastBack(rest, last[..m]);
      assert last[..m] + [last[m]] == last;
    }
  }

  /** Splits at different places: the longer first part continues the shorter past a newline. */
  lemma SameLines(a: string, x: string, b: string, y: string)
    requires Lines(a, x) == Lines(b, y) && |a| <= |b|
    ensures (a == b && x == y) || (|a| < |b| && a + "\n" <= b && x == Lines(b[|a| + 1..], y))
  {
    var text := Lines(a, x);
    assert text[..|a|] == a && text[..|b|] == b;
    assert text[|a| + 1..] == x && text[|b| + 1..] == y;
    assert text[|a|] == '\n';
    if |a| < |b| {
      assert b[..|a| + 1] == a + "\n";
      assert text[|a| + 1..] == Lines(b[|a| + 1..], y);
    }
  }

  // ---------- Direct credits ----------

  const CREDIT_HEADER := "guest.credit.issue"

  function CreditText(taskId: string, reservationId: string, amount: real): string {
    Lines(CREDIT_HEADER, Lines(taskId, Lines(reservationId, FormatAmount(amount))))
  }

  function CreditKey(hash: Hash, taskId: string, reservationId: string, amount: real): string {
    CreditProtocol.DirectKey(hash(CreditText(taskId, reservationId, amount)))
  }

  /** The key text spelled out: four lines. */
  lemma CreditTextSpelled(taskId: string, reservationId: string, amount: real)
    ensures CreditText(taskId, reservationId, amount) ==
            "guest.credit.issue\n" + taskId + "\n" + reservationId + "\n" + FormatAmount(amount)
  {
    assert "guest.credit.issue\n" == CREDIT_HEADER + "\n";
  }

  /** Reads task, reservation and cents back from a key text. */
  function DecodeCredit(text: string): Option<(string, string, int)> {
    var header := SplitFirst(text);
    if header.None? then None
    else
      var task := SplitFirst(header.value.1);
      if task.None? then None
      else
        var amount := SplitLast(task.value.1);
        if amount.None? then None else Some((task.value.0, amount.value.0, ReadCents(amount.value.1)))
  }

  /** The text is decodable for every reservation string, newlines included. */
  lemma DecodeCreditBack(taskId: string, reservationId: string, amount: real)
    requires '\n' !in taskId
    ensures DecodeCredit(CreditText(taskId, reservationId, amount)) == Some((taskId, reservationId, Cents(amount)))
  {
    var tail := Lines(reservationId, FormatAmount(amount));
    SplitFirstBack(CREDIT_HEADER, Lines(taskId, tail));
    SplitFirstBack(taskId, tail);
    NoNewlineInAmount(amount);
    SplitLastBack(reservationId, FormatAmount(amount));
    ReadCentsBack(amount);
  }

  lemma CreditKeyOfText(hash: Hash, t1: string, r1: string, a1: real, t2: string, r2: string, a2: real)
    requires Injective(hash)
    ensures CreditKey(hash, t1, r1, a1) == CreditKey(hash, t2, r2, a2) <==>
            CreditText(t1, r1, a1) == CreditText(t2, r2, a2)
  {
    var d1, d2 := hash(CreditText(t1, r1, a1)), hash(CreditText(t2, r2, a2));
    assert CreditProtocol.DirectKey(d1)[7..] == d1 && CreditProtocol.DirectKey(d2)[7..] == d2;
  }

  /** Two direct credits share a key exactly when they are the same credit to the cent. */
  lemma SameCreditKey(hash: Hash, t1: string, r1: string, a1: real, t2: string, r2: string, a2: real)
    requires Injective(hash) && '\n' !in t1 && '\n' !in t2 && a1 > 0.0 && a2 > 0.0
    ensures CreditKey(hash, t1, r1, a1) == CreditKey(hash, t2, r2, a2) <==>
            t1 == t2 && r1 == r2 && Cents(a1) == Cents(a2)
  {
    CreditKeyOfText(hash, t1, r1, a1, t2, r2, a2);
    DecodeCreditBack(t1, r1, a1);
    DecodeCreditBack(t2, r2, a2);
    SameTextSameCents(a1, a2);
  }

  /**
   * Newlines in task ids are exactly what would break this: two tasks can produce the
   * same key text if and only if one id continues the other past a newline.
   */
  lemma TaskIdsCollide(t1: string, t2: string)
    requires t1 != t2
    ensures (exists r1, r2, a1, a2 :: CreditText(t1, r1, a1) == CreditText(t2, r2, a2)) <==>
            t1 + "\n" <= t2 || t2 + "\n" <= t1
  {
    if r1, r2, a1, a2 :| CreditText(t1, r1, a1) == CreditText(t2, r2, a2) {
      var x, y := Lines(r1, FormatAmount(a1)), Lines(r2, FormatAmount(a2));
      assert CreditText(t1, r1, a1)[|CREDIT_HEADER| + 1..] == Lines(t1, x);
      assert CreditText(t2, r2, a2)[|CREDIT_HEADER| + 1..] == Lines(t2, y);
      if |t1| <= |t2| {
        SameLines(t1, x, t2, y);
      } else {
        SameLines(t2, y, t1, x);
      }
    }
    if t1 + "\n" <= t2 {
      ContinuedTaskCollides(t1, t2);
    }
    if t2 + "\n" <= t1 {
      ContinuedTaskCollides(t2, t1);
    }
  }

  lemma ContinuedTaskCollides(t1: string, t2: string)
    requires t1 + "\n" <= t2
    ensures CreditText(t1, Lines(t2[|t1| + 1..], "r"), 1.0) == CreditText(t2, "r", 1.0)
  {
  }

  // ---------- Operations ----------

  /** Python's str.isspace on one character. */
  predicate IsSpace(c: char) {
    var n := c as int;
    9 <= n <= 13 || 28 <= n <= 32 || n == 0x85 || n == 0xa0 || n == 0x1680 || 0x2000 <= n <= 0x200a
    || n == 0x2028 || n == 0x2029 || n == 0x202f || n == 0x205f || n == 0x3000
  }

  function StripLeft(s: string): string {
    if s != "" && IsSpace(s[0]) then StripLeft(s[1..]) else s
  }

  function StripRight(s: string): string {
    if s != "" && IsSpace(s[|s| - 1]) then StripRight(s[..|s| - 1]) else s
  }

  function Strip(s: string): string {
    StripRight(StripLeft(s))
  }

  /** What is stripped is surrounding space, all of it and nothing else. */
  lemma StripIsExact(s: string) returns (left: string, right: string)
    ensures s == left + Strip(s) + right
    ensures (forall i :: 0 <= i < |left| ==> IsSpace(left[i])) && (forall i :: 0 <= i < |right| ==> IsSpace(right[i]))
    ensures Strip(s) == "" || (!IsSpace(Strip(s)[0]) && !IsSpace(Strip(s)[|Strip(s)| - 1]))
  {
    left := StripLeftExact(s);
    right := StripRightExact(StripLeft(s));
    StripStarts(s);
  }

  lemma {:induction false} StripLeftExact(s: string) returns (left: string)
    ensures s == left + StripLeft(s) && forall i :: 0 <= i < |left| ==> IsSpace(left[i])
  {
    if s != "" && IsSpace(s[0]) {
      var rest := StripLeftExact(s[1..]);
      left := [s[0]] + rest;
    } else {
      left := "";
    }
  }

  lemma {:induction false} StripRightExact(s: string) returns (right: string)
    ensures s == StripRight(s) + right && forall i :: 0 <= i < |right| ==> IsSpace(right[i])
    ensures StripRight(s) == "" || !IsSpace(StripRight(s)[|StripRight(s)| - 1])
  {
    if s != "" && IsSpace(s[|s| - 1]) {
      var rest := StripRightExact(s[..|s| - 1]);
      right := rest + [s[|s| - 1]];
    } else {
      right := "";
    }
  }

  lemma {:induction false} StripLeftStarts(s: string)
    ensures StripLeft(s) == "" || !IsSpace(StripLeft(s)[0])
  {
    if s != "" && IsSpace(s[0]) {
      StripLeftStarts(s[1..]);
    }
  }

  lemma {:induction false} StripRightKeepsStart(s: string)
    requires s == "" || !IsSpace(s[0])
    ensures StripRight(s) == "" || (StripRight(s)[0] == s[0] && s != "")
  {
    if s != "" && IsSpace(s[|s| - 1]) {
      StripRightKeepsStart(s[..|s| - 1]);
    }
  }

  lemma StripStarts(s: string)
    ensures Strip(s) == "" || !IsSpace(Strip(s)[0])
  {
    StripLeftStarts(s);
    StripRightKeepsStart(StripLeft(s));
  }

  datatype Operation = Maintenance | Message

  function ActionText(op: Operation): string {
    match op
    case Maintenance => "maintenance.create"
    case Message => "guest.message.send"
  }

  function OperationText(op: Operation, taskId: string, reservationId: string, payload: string): string {
    Lines(ActionText(op), Lines(taskId, Lines(reservationId, payload)))
  }

  function OperationKey(hash: Hash, op: Operation, taskId: string, reservationId: string, payload: string): string {
    "operation:" + hash(OperationText(op, taskId, reservationId, payload))
  }

  function MaintenancePayload(category: string, urgency: string, description: string): string {
    Lines(Strip(category), Lines(urgency, Strip(description)))
  }

  /** The operation key text spelled out, action by action. */
  lemma OperationTextSpelled(taskId: string, reservationId: string, payload: string)
    ensures OperationText(Maintenance, taskId, reservationId, payload) ==
            "maintenance.create\n" + taskId + "\n" + reservationId + "\n" + payload
    ensures OperationText(Message, taskId, reservationId, payload) ==
            "guest.message.send\n" + taskId + "\n" + reservationId + "\n" + payload
  {
    assert "maintenance.create\n" == ActionText(Maintenance) + "\n";
    assert "guest.message.send\n" == ActionText(Message) + "\n";
  }

  lemma ActionTexts(op: Operation)
    ensures '\n' !in ActionText(op)
    ensures ActionText(Maintenance) != ActionText(Message)
  {
  }

  lemma OperationKeyOfText(hash: Hash, op1: Operation, t1: string, r1: string, p1: string,
                           op2: Operation, t2: string, r2: string, p2: string)
    requires Injective(hash)
    requires OperationKey(hash, op1, t1, r1, p1) == OperationKey(hash, op2, t2, r2, p2)
    ensures OperationText(op1, t1, r1, p1) == OperationText(op2, t2, r2, p2)
  {
    var d1, d2 := hash(OperationText(op1, t1, r1, p1)), hash(OperationText(op2, t2, r2, p2));
    assert ("operation:" + d1)[10..] == d1 && ("operation:" + d2)[10..] == d2;
  }

  /** With newline-free task and reservation ids the key determines all its fields. */
  lemma OperationKeyDetermines(hash: Hash, op1: Operation, t1: string, r1: string, p1: string,
                               op2: Operation, t2: string, r2: string, p2: string)
    requires Injective(hash) && '\n' !in t1 && '\n' !in t2 && '\n' !in r1 && '\n' !in r2
    requires OperationKey(hash, op1, t1, r1, p1) == OperationKey(hash, op2, t2, r2, p2)
    ensures op1 == op2 && t1 == t2 && r1 == r2 && p1 == p2
  {
    OperationKeyOfText(hash, op1, t1, r1, p1, op2, t2, r2, p2);
    ActionTexts(op1);
    ActionTexts(op2);
    SplitFirstBack(ActionText(op1), Lines(t1, Lines(r1, p1)));
    SplitFirstBack(ActionText(op2), Lines(t2, Lines(r2, p2)));
    SplitFirstBack(t1, Lines(r1, p1));
    SplitFirstBack(t2, Lines(r2, p2));
    SplitFirstBack(r1, p1);
    SplitFirstBack(r2, p2);
  }

  /** A maintenance payload determines its fields up to surrounding space. */
  lemma MaintenanceDetermines(c1: string, u1: string, d1: string, c2: string, u2: string, d2: string)
    requires '\n' !in Strip(c1) && '\n' !in Strip(c2) && '\n' !in u1 && '\n' !in u2
    ensures MaintenancePayload(c1, u1, d1) == MaintenancePayload(c2, u2, d2) <==>
            Strip(c1) == Strip(c2) && u1 == u2 && Strip(d1) == Strip(d2)
  {
    SplitFirstBack(Strip(c1), Lines(u1, Strip(d1)));
    SplitFirstBack(Strip(c2), Lines(u2, Strip(d2)));
    SplitFirstBack(u1, Strip(d1));
    SplitFirstBack(u2, Strip(d2));
  }

  /** A newline inside the category can break that: two work orders, one key text. */
  lemma CategoryNewlineCollides()
    ensures MaintenancePayload("a\nlow", "low", "b") == MaintenancePayload("a", "low", "low\nb")
  {
  }

  /** The second text continues the first with a new, unindented line. */
  predicate ContinuesWithLine(r1: string, r2: string) {
    r1 + "\n" <= r2 && |r2| > |r1| + 1 && !IsSpace(r2[|r1| + 1])
  }

  const URGENCIES := ["low", "medium", "high", "emergency"]

  /** Some accepted work orders of these two categories share a payload. */
  ghost predicate CategoriesCollide(c1: string, c2: string) {
    exists u1, d1, u2, d2 :: u1 in URGENCIES && u2 in URGENCIES &&
      MaintenancePayload(c1, u1, d1) == MaintenancePayload(c2, u2, d2)
  }

  /** After the first category comes a line that is an urgency, and nothing or an unindented line. */
  predicate ContinuesWithUrgency(s1: string, s2: string) {
    s1 + "\n" <= s2 && exists u :: u in URGENCIES && (s2[|s1| + 1..] == u || ContinuesWithLine(u, s2[|s1| + 1..]))
  }

  /**
   * For maintenance keys the exact condition on the categories, newlines or not: two
   * different ones collide if and only if one continues the other with an urgency line.
   */
  lemma CategoriesCollideExactly(c1: string, c2: string)
    requires Strip(c1) != Strip(c2)
    ensures CategoriesCollide(c1, c2) <==>
            ContinuesWithUrgency(Strip(c1), Strip(c2)) || ContinuesWithUrgency(Strip(c2), Strip(c1))
  {
    hide MaintenancePayload, Strip, ContinuesWithUrgency;
    if CategoriesCollide(c1, c2) {
      var u1, d1, u2, d2 :| u1 in URGENCIES && u2 in URGENCIES &&
        MaintenancePayload(c1, u1, d1) == MaintenancePayload(c2, u2, d2);
      if |Strip(c1)| <= |Strip(c2)| {
        CollisionShowsUrgency(c1, u1, d1, c2, u2, d2);
      } else {
        CollisionShowsUrgency(c2, u2, d2, c1, u1, d1);
      }
    }
    if ContinuesWithUrgency(Strip(c1), Strip(c2)) {
      UrgencyLineCollides(c1, c2);
    }
    if ContinuesWithUrgency(Strip(c2), Strip(c1)) {
      UrgencyLineCollides(c2, c1);
    }
  }

  lemma CollisionShowsUrgency(c1: string, u1: string, d1: string, c2: string, u2: string, d2: string)
    requires Strip(c1) != Strip(c2) && |Strip(c1)| <= |Strip(c2)| && u1 in URGENCIES
    requires MaintenancePayload(c1, u1, d1) == MaintenancePayload(c2, u2, d2)
    ensures ContinuesWithUrgency(Strip(c1), Strip(c2))
  {
    hide Strip;
    var p1, p2 := Lines(u1, Strip(d1)), Lines(u2, Strip(d2));
    SameLines(Strip(c1), p1, Strip(c2), p2);
    StripStarts(d1);
    UrgencyFollows(u1, Strip(d1), Strip(c2)[|Strip(c1)| + 1..], p2);
  }

  /** What has to stand before a later line when the text in front is an urgency line. */
  lemma UrgencyFollows(u: string, d: string, x: string, p: string)
    requires u in URGENCIES && (d == "" || !IsSpace(d[0])) && Lines(u, d) == Lines(x, p)
    ensures x == u || ContinuesWithLine(u, x)
  {
    if |u| <= |x| {
      SameLines(u, d, x, p);
      if |u| < |x| {
        LaterLine(u, d, x, p);
      }
    } else {
      SameLines(x, p, u, d);
      LineInside(x, u);
      UrgencyIsOneLine(u);
    }
  }

  lemma LineInside(x: string, s: string)
    requires x + "\n" <= s
    ensures '\n' in s
  {
    assert s[|x|] == (x + "\n")[|x|];
  }

  lemma UrgencyIsOneLine(u: string)
    requires u in URGENCIES
    ensures '\n' !in u && u != "" && !IsSpace(u[0])
  {
  }

  lemma UrgencyLineCollides(c1: string, c2: string)
    requires ContinuesWithUrgency(Strip(c1), Strip(c2))
    ensures CategoriesCollide(c1, c2) && CategoriesCollide(c2, c1)
  {
    hide Strip, StripLeft, StripRight;
    var s1, s2 := Strip(c1), Strip(c2);
    var x := s2[|s1| + 1..];
    var u :| u in URGENCIES && (x == u || ContinuesWithLine(u, x));
    var d1 := DescriptionFor(u, x, Lines("low", "a"));
    StripKeeps("a");
    JoinLines(s1, x, s2, Lines("low", "a"));
    assert MaintenancePayload(c1, u, d1) == MaintenancePayload(c2, "low", "a");
  }

  lemma JoinLines(a: string, x: string, b: string, p: string)
    requires a + "\n" <= b && x == b[|a| + 1..]
    ensures Lines(a, Lines(x, p)) == Lines(b, p)
  {
  }

  /** The description that makes an urgency line read like the rest of a category. */
  lemma DescriptionFor(u: string, x: string, p: string) returns (d: string)
    requires u in URGENCIES && (x == u || ContinuesWithLine(u, x))
    requires p != "" && !IsSpace(p[0]) && !IsSpace(p[|p| - 1])
    ensures Strip(d) == d && Lines(u, d) == Lines(x, p)
  {
    hide Strip, StripLeft, StripRight;
    if x == u {
      d := p;
    } else {
      d := Lines(x[|u| + 1..], p);
      assert d[0] == x[|u| + 1];
      JoinLines(u, x[|u| + 1..], x, p);
    }
    assert d[|d| - 1] == p[|p| - 1];
    StripKeeps(d);
  }

  lemma StripKeeps(s: string)
    requires s != "" && !IsSpace(s[0]) && !IsSpace(s[|s| - 1])
    ensures Strip(s) == s
  {
  }

  /** Two messages to different reservations of one task share a key text. */
  ghost predicate MessagesCollide(taskId: string, r1: string, r2: string) {
    exists m1, m2 :: Strip(m1) != "" && Strip(m2) != "" &&
      OperationText(Message, taskId, r1, Strip(m1)) == OperationText(Message, taskId, r2, Strip(m2))
  }

  /**
   * For message keys the exact condition on the reservation ids: some non-blank messages
   * collide if and only if one id continues the other with an unindented line.
   */
  lemma MessageKeysCollideExactly(taskId: string, r1: string, r2: string)
    requires r1 != r2
    ensures MessagesCollide(taskId, r1, r2) <==> ContinuesWithLine(r1, r2) || ContinuesWithLine(r2, r1)
  {
    if MessagesCollide(taskId, r1, r2) {
      var m1, m2 :| Strip(m1) != "" && Strip(m2) != "" &&
        OperationText(Message, taskId, r1, Strip(m1)) == OperationText(Message, taskId, r2, Strip(m2));
      var n := |ActionText(Message)| + 1 + |taskId| + 1;
      assert OperationText(Message, taskId, r1, Strip(m1))[n..] == Lines(r1, Strip(m1));
      assert OperationText(Message, taskId, r2, Strip(m2))[n..] == Lines(r2, Strip(m2));
      StripStarts(m1);
      StripStarts(m2);
      if |r1| <= |r2| {
        SameLines(r1, Strip(m1), r2, Strip(m2));
        LaterLine(r1, Strip(m1), r2, Strip(m2));
      } else {
        SameLines(r2, Strip(m2), r1, Strip(m1));
        LaterLine(r2, Strip(m2), r1, Strip(m1));
      }
    }
    if ContinuesWithLine(r1, r2) {
      ContinuedReservationCollides(taskId, r1, r2);
    }
    if ContinuesWithLine(r2, r1) {
      ContinuedReservationCollides(taskId, r2, r1);
    }
  }

  lemma LaterLine(r1: string, p1: string, r2: string, p2: string)
    requires |r1| < |r2| && r1 + "\n" <= r2 && p1 == Lines(r2[|r1| + 1..], p2)
    requires p1 != "" && !IsSpace(p1[0])
    ensures ContinuesWithLine(r1, r2)
  {
  }

  lemma ContinuedReservationCollides(taskId: string, r1: string, r2: string)
    requires ContinuesWithLine(r1, r2)
    ensures MessagesCollide(taskId, r1, r2) && MessagesCollide(taskId, r2, r1)
  {
    var x := r2[|r1| + 1..];
    var m1, m2 := Lines(x, "a"), "a";
    assert m1[0] == x[0] && m1[|m1| - 1] == 'a';
    StripKeeps(m1);
    StripKeeps(m2);
    assert r2 == r1 + "\n" + x;
    assert Lines(r1, m1) == Lines(r2, m2);
    assert OperationText(Message, taskId, r1, Strip(m1)) == OperationText(Message, taskId, r2, Strip(m2));
  }

  /** Accepted work orders for two reservations of one task share a key text. */
  ghost predicate WorkOrdersCollide(taskId: string, r1: string, r2: string) {
    exists c1, u1, d1, c2, u2, d2 :: u1 in URGENCIES && u2 in URGENCIES &&
      OperationText(Maintenance, taskId, r1, MaintenancePayload(c1, u1, d1)) ==
      OperationText(Maintenance, taskId, r2, MaintenancePayload(c2, u2, d2))
  }

  /** After the first id comes a line that is empty, or unindented, or blank before an urgency line. */
  predicate ContinuesWithOrder(r1: string, r2: string) {
    r1 + "\n" <= r2
    && var x := r2[|r1| + 1..]; x == "" || !IsSpace(x[0]) || ContinuesWithUrgency("", x)
  }

  /**
   * For maintenance keys the exact condition on the reservation ids.  It is wider than for
   * messages, because a category may be empty.
   */
  lemma MaintenanceKeysCollideExactly(taskId: string, r1: string, r2: string)
    requires r1 != r2
    ensures WorkOrdersCollide(taskId, r1, r2) <==> ContinuesWithOrder(r1, r2) || ContinuesWithOrder(r2, r1)
  {
    hide Strip, StripLeft, StripRight, ContinuesWithOrder, MaintenancePayload;
    if WorkOrdersCollide(taskId, r1, r2) {
      var c1, u1, d1, c2, u2, d2 :| u1 in URGENCIES && u2 in URGENCIES &&
        OperationText(Maintenance, taskId, r1, MaintenancePayload(c1, u1, d1)) ==
        OperationText(Maintenance, taskId, r2, MaintenancePayload(c2, u2, d2));
      SameTail(taskId, r1, MaintenancePayload(c1, u1, d1), r2, MaintenancePayload(c2, u2, d2));
      if |r1| <= |r2| {
        OrderShows(r1, c1, u1, d1, r2, MaintenancePayload(c2, u2, d2));
      } else {
        OrderShows(r2, c2, u2, d2, r1, MaintenancePayload(c1, u1, d1));
      }
    }
    if ContinuesWithOrder(r1, r2) {
      OrderLineCollides(taskId, r1, r2);
    }
    if ContinuesWithOrder(r2, r1) {
      OrderLineCollides(taskId, r2, r1);
    }
  }

  lemma SameTail(taskId: string, r1: string, p1: string, r2: string, p2: string)
    requires OperationText(Maintenance, taskId, r1, p1) == OperationText(Maintenance, taskId, r2, p2)
    ensures Lines(r1, p1) == Lines(r2, p2)
  {
    var n := |ActionText(Maintenance)| + 1 + |taskId| + 1;
    assert OperationText(Maintenance, taskId, r1, p1)[n..] == Lines(r1, p1);
    assert OperationText(Maintenance, taskId, r2, p2)[n..] == Lines(r2, p2);
  }

  lemma OrderShows(r1: string, c1: string, u1: string, d1: string, r2: string, p2: string)
    requires r1 != r2 && |r1| <= |r2| && u1 in URGENCIES && Lines(r1, MaintenancePayload(c1, u1, d1)) == Lines(r2, p2)
    ensures ContinuesWithOrder(r1, r2)
  {
    hide Strip;
    var order := Lines(u1, Strip(d1));
    SameLines(r1, Lines(Strip(c1), order), r2, p2);
    var x := r2[|r1| + 1..];
    if x != "" && IsSpace(x[0]) {
      StripStarts(c1);
      assert Lines(Strip(c1), order)[0] == x[0];
      assert Strip(c1) == "";
      SameLines("", order, x, p2);
      StripStarts(d1);
      UrgencyFollows(u1, Strip(d1), x[1..], p2);
    }
  }

  lemma OrderLineCollides(taskId: string, r1: string, r2: string)
    requires ContinuesWithOrder(r1, r2)
    ensures WorkOrdersCollide(taskId, r1, r2) && WorkOrdersCollide(taskId, r2, r1)
  {
    hide Strip, StripLeft, StripRight, MaintenancePayload;
    var x := r2[|r1| + 1..];
    var c1, u1, d1, c2, d2 := OrdersFor(x);
    JoinLines(r1, x, r2, MaintenancePayload(c2, "low", d2));
    assert OperationText(Maintenance, taskId, r1, MaintenancePayload(c1, u1, d1)) ==
           OperationText(Maintenance, taskId, r2, MaintenancePayload(c2, "low", d2));
  }

  /** Two work orders, the payload of one being that of the other behind the lines `x`. */
  lemma OrdersFor(x: string) returns (c1: string, u1: string, d1: string, c2: string, d2: string)
    requires x == "" || !IsSpace(x[0]) || ContinuesWithUrgency("", x)
    ensures u1 in URGENCIES
    ensures MaintenancePayload(c1, u1, d1) == Lines(x, MaintenancePayload(c2, "low", d2))
  {
    hide Strip, StripLeft, StripRight;
    StripKeeps("a");
    StripKeeps("low");
    NothingToStrip();
    u1, d2 := "low", "a";
    if x == "" {
      c1, d1, c2 := "", Lines("low", "a"), "low";
      StripKeeps(d1);
    } else if !IsSpace(x[0]) {
      c1, d1, c2 := Lines(x, "a"), "a", "a";
      assert c1[0] == x[0] && c1[|c1| - 1] == 'a';
      StripKeeps(c1);
      assert c1 == x + "\n" + "a";
    } else {
      c1, c2 := "", "a";
      var u :| u in URGENCIES && (x[1..] == u || ContinuesWithLine(u, x[1..]));
      u1 := u;
      var p := Lines("a", Lines("low", "a"));
      d1 := DescriptionFor(u, x[1..], p);
      JoinLines("", x[1..], x, p);
    }
  }

  lemma NothingToStrip()
    ensures Strip("") == ""
  {
  }
}
