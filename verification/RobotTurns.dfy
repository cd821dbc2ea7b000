/**
  The robot channel's turn table, which survives restarts, and the process-local maps beside it:
  pending futures and the active operation of each chat and each device.
 */
module RobotTurns {
  import opened Options
  import Text

  type Op = string
  type Response = string

  /** A recorded turn. `chat` is the conversation that its tenant, device and session determine. */
  datatype Turn = Turn(text: string, device: string, chat: string, response: Option<Response>)

  datatype Answer = Fresh | Cached(response: Response) | Waits | Conflict | RecoveryRequired

  predicate SafeChar(c: char) {
    'a' <= c <= 'z' || 'A' <= c <= 'Z' || '0' <= c <= '9' || c == '.' || c == '_' || c == ':' || c == '-'
  }

  /** The identifiers that the protocol accepts. */
  predicate SafeId(s: string) {
    && 1 <= |s| <= 120 && (forall c :: c in s ==> SafeChar(c))
    && s[0] != '.' && s[0] != '_' && s[0] != ':' && s[0] != '-'
  }

  /** The operation of a turn; its digest stands for it. */
  function OperationId(device: string, session: string, turn: string): Op {
    Text.Join([device, session, turn], '\n')
  }

  /** Accepted identifiers contain no newline, so different turns have different operations. */
  lemma OperationIdInjective(d1: string, s1: string, t1: string, d2: string, s2: string, t2: string)
    requires SafeId(d1) && SafeId(s1) && SafeId(t1) && SafeId(d2) && SafeId(s2) && SafeId(t2)
    requires OperationId(d1, s1, t1) == OperationId(d2, s2, t2)
    ensures d1 == d2 && s1 == s2 && t1 == t2
  {
    var a, b := [d1, s1, t1], [d2, s2, t2];
    assert !SafeChar('\n');
    Text.JoinInjective(a, b, '\n');
    assert d1 == a[0] == b[0] && s1 == a[1] == b[1] && t1 == a[2] == b[2];
  }

  function ChatId(tenant: string, device: string, session: string): string {
    "robot:" + tenant + ":" + device + ":" + session
  }

  /** The longest name, one session character and the separator fit into an identifier together with `x`. */
  const LONGEST := 120

  /** Device `d` is device `d'`, the separator, and a name that a session can start with. */
  ghost predicate Extends(d: string, d': string) {
    exists x :: d == d' + [':'] + x && SafeId(x) && |x| <= LONGEST - 2
  }

  /** Two devices can have the same chat. */
  ghost predicate Collide(tenant: string, d: string, d': string) {
    exists s, s' :: SafeId(s) && SafeId(s') && ChatId(tenant, d, s) == ChatId(tenant, d', s')
  }

  lemma SameChat(tenant: string, d: string, s: string, d': string, s': string)
    ensures ChatId(tenant, d, s) == ChatId(tenant, d', s') <==> d + [':'] + s == d' + [':'] + s'
  {
    var p := "robot:" + tenant + ":";
    var a, b := d + [':'] + s, d' + [':'] + s';
    assert ChatId(tenant, d, s) == p + a && ChatId(tenant, d', s') == p + b;
    assert a == (p + a)[|p|..] && b == (p + b)[|p|..];
  }

  /** A session that absorbs the end of a longer device name. */
  lemma Absorbed(d: string, s: string, d': string, s': string)
    requires SafeId(s) && SafeId(s') && SafeId(d) && d != d' && |d'| <= |d|
    requires d + [':'] + s == d' + [':'] + s'
    ensures Extends(d, d')
  {
    var a, b := d + [':'] + s, d' + [':'] + s';
    assert d' == b[..|d'|] == a[..|d'|] == d[..|d'|];
    assert d == a[..|d|];
    assert |d'| < |d|;
    assert d[|d'|] == a[|d'|] == b[|d'|] == ':';
    var x := d[|d'| + 1..];
    assert d == d' + [':'] + x;
    assert s' == b[|d'| + 1..] == a[|d'| + 1..] == x + [':'] + s;
    assert s'[0] == (x + [':'])[0];
    forall c | c in x ensures SafeChar(c) {
      assert c in d;
    }
  }

  /**
    Different devices of a tenant can share a chat exactly when the name of one is the name of the other, the separator
    and a further identifier.
   */
  lemma DevicesCollideExactly(tenant: string, d: string, d': string)
    requires SafeId(d) && SafeId(d') && d != d'
    ensures Collide(tenant, d, d') <==> Extends(d, d') || Extends(d', d)
  {
    if Collide(tenant, d, d') {
      var s, s' :| SafeId(s) && SafeId(s') && ChatId(tenant, d, s) == ChatId(tenant, d', s');
      SameChat(tenant, d, s, d', s');
      if |d'| <= |d| {
        Absorbed(d, s, d', s');
      } else {
        Absorbed(d', s', d, s);
      }
    }
    if Extends(d, d') {
      ExtensionCollides(tenant, d, d');
    }
    if Extends(d', d) {
      ExtensionCollides(tenant, d', d);
    }
  }

  lemma ExtensionCollides(tenant: string, d: string, d': string)
    requires Extends(d, d')
    ensures Collide(tenant, d, d') && Collide(tenant, d', d)
  {
    var x :| d == d' + [':'] + x && SafeId(x) && |x| <= LONGEST - 2;
    var s := "a";
    var s' := x + [':'] + s;
    assert SafeId(s);
    assert SafeId(s') by {
      assert s'[0] == x[0];
    }
    assert d + [':'] + s == d' + [':'] + s';
    SameChat(tenant, d, s, d', s');
  }

  /** Devices without the separator never share a chat. */
  lemma PlainDevicesNeverCollide(tenant: string, d: string, d': string)
    requires SafeId(d) && SafeId(d') && d != d' && ':' !in d && ':' !in d'
    ensures !Collide(tenant, d, d')
  {
    DevicesCollideExactly(tenant, d, d');
    assert forall x :: ':' in d' + [':'] + x && ':' in d + [':'] + x;
  }

  /** Such devices: accepted identifiers may contain the separator. */
  lemma ChatIdsCollide()
    ensures SafeId("a:b") && SafeId("c") && SafeId("a") && SafeId("b:c")
    ensures ChatId("t", "a:b", "c") == ChatId("t", "a", "b:c")
  {
    assert ChatId("t", "a:b", "c") == "robot:t:a:b:c" == ChatId("t", "a", "b:c");
  }

  /** What a submission of `text` under operation `op` is answered. */
  function AnswerTo(turns: map<Op, Turn>, futures: set<Op>, op: Op, text: string): Answer {
    if op !in turns then Fresh
    else if turns[op].text != text then Conflict
    else if turns[op].response.Some? then Cached(turns[op].response.value)
    else if op in futures then Waits
    else RecoveryRequired
  }

  /** Whether a chat and a device are free for `op`. */
  predicate Free(byChat: map<string, Op>, byDevice: map<string, Op>, op: Op, chat: string, device: string) {
    (chat in byChat ==> byChat[chat] == op) && (device in byDevice ==> byDevice[device] == op)
  }

  function Without(m: map<string, Op>, key: string, op: Op): map<string, Op> {
    if key in m && m[key] == op then m - {key} else m
  }

  function WithoutOp(m: map<string, Op>, op: Op): map<string, Op> {
    map k | k in m && m[k] != op :: m[k]
  }

  /** The adapter's fields; every method is one critical section. */
  class RobotAdapter {
    var turns: map<Op, Turn>
    var futures: set<Op>
    var byChat: map<string, Op>
    var byDevice: map<string, Op>

    constructor (turns: map<Op, Turn>)
      ensures this.turns == turns && futures == {} && byChat == map[] && byDevice == map[]
    {
      this.turns, futures, byChat, byDevice := turns, {}, map[], map[];
    }

    method ClaimTurn(op: Op, text: string, device: string, chat: string) returns (answer: Answer)
      modifies this
      ensures answer == AnswerTo(old(turns), old(futures), op, text)
      ensures turns == if answer.Fresh? then old(turns)[op := Turn(text, device, chat, None)] else old(turns)
      ensures futures == if answer.Fresh? then old(futures) + {op} else old(futures)
      ensures byChat == old(byChat) && byDevice == old(byDevice)
    {
      if op in turns {
        var existing := turns[op];
        if existing.text != text {
          return Conflict;
        }
        if existing.response.Some? {
          return Cached(existing.response.value);
        }
        if op in futures {
          return Waits;
        }
        return RecoveryRequired;
      }
      futures := futures + {op};
      turns := turns[op := Turn(text, device, chat, None)];
      return Fresh;
    }

    method CompleteTurn(op: Op, response: Response)
      modifies this
      ensures turns == if op in old(turns) then old(turns)[op := old(turns)[op].(response := Some(response))] else old(turns)
      ensures futures == if op in old(turns) then old(futures) - {op} else old(futures)
      ensures byChat == old(byChat) && byDevice == old(byDevice)
    {
      if op !in turns {
        return;
      }
      turns := turns[op := turns[op].(response := Some(response))];
      futures := futures - {op};
    }

    /** The busy fence. */
    method Fence(op: Op, chat: string, device: string) returns (ok: bool)
      modifies this
      ensures ok <==> Free(old(byChat), old(byDevice), op, chat, device)
      ensures byChat == if ok then old(byChat)[chat := op] else old(byChat)
      ensures byDevice == if ok then old(byDevice)[device := op] else old(byDevice)
      ensures turns == old(turns) && futures == old(futures)
    {
      if chat in byChat && byChat[chat] != op {
        return false;
      }
      if device in byDevice && byDevice[device] != op {
        return false;
      }
      byChat := byChat[chat := op];
      byDevice := byDevice[device := op];
      return true;
    }

    /** The end of a submission that was not handed to reply recovery. */
    method Release(op: Op, chat: string, device: string)
      modifies this
      ensures byChat == Without(old(byChat), chat, op) && byDevice == Without(old(byDevice), device, op)
      ensures turns == old(turns) && futures == old(futures)
    {
      if chat in byChat && byChat[chat] == op {
        byChat := byChat - {chat};
      }
      if device in byDevice && byDevice[device] == op {
        byDevice := byDevice - {device};
      }
    }

    /** The end of a durable delivery: the operation is removed wherever it is still active. */
    method ClearDelivered(op: Op, chat: string)
      modifies this
      ensures byChat == Without(old(byChat), chat, op) && byDevice == WithoutOp(old(byDevice), op)
      ensures turns == old(turns) && futures == old(futures)
    {
      if chat in byChat && byChat[chat] == op {
        byChat := byChat - {chat};
      }
      var rest := byDevice.Keys;
      while rest != {}
        invariant rest <= old(byDevice).Keys
        invariant forall k :: k in byDevice <==> k in old(byDevice) && (k in rest || old(byDevice)[k] != op)
        invariant forall k :: k in byDevice ==> byDevice[k] == old(byDevice)[k]
        invariant byChat == Without(old(byChat), chat, op) && turns == old(turns) && futures == old(futures)
        decreases |rest|
      {
        var device :| device in rest;
        rest := rest - {device};
        if byDevice[device] == op {
          byDevice := byDevice - {device};
        }
      }
    }
  }
}
