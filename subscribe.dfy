/**
 * The landing page's subscription form: `onSubmit` trims and validates the
 * address, then tries EmailJS and the subscription backend one after the other
 * and reports success when either accepted it. The two network calls are
 * oracles: their replies are inputs. The component's observable behaviour is
 * its `status` and `sending` state and the list of actions it performed.
 */
module Subscribe {
  import opened Wrappers

  /** `\s` of a JavaScript regular expression, which is also what `String.prototype.trim` strips. */
  predicate IsJsSpace(c: char) {
    var n := c as int;
    (0x09 <= n <= 0x0D) || n == 0x20 || n == 0xA0 || n == 0x1680 || (0x2000 <= n <= 0x200A) ||
    n == 0x2028 || n == 0x2029 || n == 0x202F || n == 0x205F || n == 0x3000 || n == 0xFEFF
  }

  /** The number of white-space characters `s` starts with. */
  function LeadingSpaces(s: string): (n: nat)
    ensures n <= |s|
    ensures forall k :: 0 <= k < n ==> IsJsSpace(s[k])
    ensures n < |s| ==> !IsJsSpace(s[n])
  {
    if s != [] && IsJsSpace(s[0]) then 1 + LeadingSpaces(s[1..]) else 0
  }

  /** The number of white-space characters `s` ends with. */
  function TrailingSpaces(s: string): (n: nat)
    ensures n <= |s|
    ensures forall k :: |s| - n <= k < |s| ==> IsJsSpace(s[k])
    ensures n < |s| ==> !IsJsSpace(s[|s| - n - 1])
  {
    if s != [] && IsJsSpace(s[|s| - 1]) then 1 + TrailingSpaces(s[..|s| - 1]) else 0
  }

  predicate AllSpaces(s: string) {
    forall k :: 0 <= k < |s| ==> IsJsSpace(s[k])
  }

  /** `t` is `s` with only white space around it, `t` starting at index `i`. */
  predicate Padded(s: string, i: int, t: string) {
    0 <= i <= |s| - |t| && t == s[i..i + |t|] && AllSpaces(s[..i]) && AllSpaces(s[i + |t|..])
  }

  /** `s.trim()`: the slice of `s` left after removing white space at both ends. */
  function Trim(s: string): (t: string)
    ensures t != [] ==> !IsJsSpace(t[0]) && !IsJsSpace(t[|t| - 1])
    ensures exists i :: Padded(s, i, t)
  {
    var lead := LeadingSpaces(s);
    if lead == |s| then
      assert Padded(s, |s|, []) by { assert s[..|s|] == s; }
      []
    else
      var trail := TrailingSpaces(s);
      assert Padded(s, lead, s[lead..|s| - trail]);
      s[lead..|s| - trail]
  }

  /** Trimming removes exactly the padding: white space around a text with no white space at its ends. */
  lemma TrimRemovesPadding(pre: string, t: string, post: string)
    requires AllSpaces(pre) && AllSpaces(post)
    requires t != [] ==> !IsJsSpace(t[0]) && !IsJsSpace(t[|t| - 1])
    ensures Trim(pre + t + post) == t
  {
    var s := pre + t + post;
    var r := Trim(s);
    var i :| Padded(s, i, r);
    assert forall k :: 0 <= k < i ==> IsJsSpace(s[..i][k]);
    assert forall k :: i + |r| <= k < |s| ==> IsJsSpace(s[k]) by {
      forall k | i + |r| <= k < |s| ensures IsJsSpace(s[k]) {
        assert s[k] == s[i + |r|..][k - i - |r|];
      }
    }
    assert s[|pre|..|pre| + |t|] == t;
  }

  /** Trimming twice is trimming once. */
  lemma TrimIdempotent(s: string)
    ensures Trim(Trim(s)) == Trim(s)
  {
    TrimRemovesPadding([], Trim(s), []);
    assert [] + Trim(s) + [] == Trim(s);
  }

  /** `[^\s@]` for every character: no white space and no '@'. */
  predicate Plain(t: string) {
    forall i :: 0 <= i < |t| ==> !IsJsSpace(t[i]) && t[i] != '@'
  }

  /** `/^[^\s@]+@[^\s@]+\.[^\s@]+$/.test(s)`, part by part. */
  function EmailPattern(s: string): (matches: bool)
    // the shortest match is "x@y.z"
    ensures matches ==> |s| >= 5
  {
    exists k, m :: 0 < k < |s| && k + 1 < m < |s| - 1 && s[k] == '@' && s[m] == '.' &&
                   Plain(s[..k]) && Plain(s[k + 1..m]) && Plain(s[m + 1..])
  }

  /**
   * The same language described by its properties: no white space, exactly one '@'
   * with something before it, and a '.' after it that is neither right after the
   * '@' nor the last character.
   */
  predicate WellFormedAddress(s: string) {
    (forall i :: 0 <= i < |s| ==> !IsJsSpace(s[i])) &&
    exists k :: 0 < k < |s| && s[k] == '@' &&
                (forall j :: 0 <= j < |s| && s[j] == '@' ==> j == k) &&
                exists m :: k + 1 < m < |s| - 1 && s[m] == '.'
  }

  /** A match of the pattern has the properties of a well-formed address. */
  lemma MatchIsWellFormed(s: string)
    requires EmailPattern(s)
    ensures WellFormedAddress(s)
  {
    var k, m :| 0 < k < |s| && k + 1 < m < |s| - 1 && s[k] == '@' && s[m] == '.' &&
                Plain(s[..k]) && Plain(s[k + 1..m]) && Plain(s[m + 1..]);
    forall j | 0 <= j < |s| && j != k && j != m
      ensures !IsJsSpace(s[j]) && s[j] != '@'
    {
      if j < k { assert s[j] == s[..k][j]; }
      else if j < m { assert s[j] == s[k + 1..m][j - k - 1]; }
      else { assert s[j] == s[m + 1..][j - m - 1]; }
    }
    assert !IsJsSpace(s[k]) && !IsJsSpace(s[m]);
  }

  /** A well-formed address matches the pattern. */
  lemma WellFormedMatches(s: string)
    requires WellFormedAddress(s)
    ensures EmailPattern(s)
  {
    var k :| 0 < k < |s| && s[k] == '@' &&
             (forall j :: 0 <= j < |s| && s[j] == '@' ==> j == k) &&
             exists m :: k + 1 < m < |s| - 1 && s[m] == '.';
    var m :| k + 1 < m < |s| - 1 && s[m] == '.';
    assert Plain(s[..k]) by {
      forall i | 0 <= i < k ensures !IsJsSpace(s[..k][i]) && s[..k][i] != '@' {
        assert s[..k][i] == s[i];
      }
    }
    var domain, last := s[k + 1..m], s[m + 1..];
    assert Plain(domain) by {
      forall i | 0 <= i < |domain| ensures !IsJsSpace(domain[i]) && domain[i] != '@' {
        assert domain[i] == s[k + 1 + i];
      }
    }
    assert Plain(last) by {
      forall i | 0 <= i < |last| ensures !IsJsSpace(last[i]) && last[i] != '@' {
        assert last[i] == s[m + 1 + i];
      }
    }
  }

  lemma EmailPatternCharacterized(s: string)
    ensures EmailPattern(s) <==> WellFormedAddress(s)
  {
    if EmailPattern(s) { MatchIsWellFormed(s); }
    if WellFormedAddress(s) { WellFormedMatches(s); }
  }

  /** Concrete cases: the pattern wants a dot after the '@' with text on both sides, and no second '@'. */
  lemma EmailExamples()
    ensures EmailPattern("a@b.co")
    ensures !EmailPattern("a@b")
    ensures !EmailPattern("a@@b.co")
  {
    var s := "a@b.co";
    EmailPatternCharacterized(s);
    assert s[1] == '@' && s[3] == '.';
    EmailPatternCharacterized("a@b");
    EmailPatternCharacterized("a@@b.co");
    assert "a@@b.co"[1] == '@' && "a@@b.co"[2] == '@';
  }

  /** The `status` state: null, then one of the four strings the component uses. */
  datatype Status = Idle | Sending | Success | Error | Invalid

  /** The build-time environment; an unset variable is None, `API_BASE` defaults to "". */
  datatype Env = Env(apiBase: string, serviceId: Option<string>, templateId: Option<string>, publicKey: Option<string>)

  /** How `emailjs.send` settles: it throws, or resolves to a response whose `status` may be missing. */
  datatype EmailJsReply = EmailJsThrew | EmailJsResolved(status: Option<int>)

  /** How `fetch` settles: it throws, or resolves to a response with its `ok` flag. */
  datatype FetchReply = FetchThrew | FetchResolved(ok: bool)

  /** What the handler does that can be observed: state updates, the two requests, the form reset. */
  datatype Action =
    | SetStatus(status: Status)
    | SetSending(sending: bool)
    | SendEmailJs(serviceId: string, templateId: string, userEmail: string, publicKey: Option<string>)
    | PostSubscribe(url: string, email: string)
    | ResetForm

  predicate Truthy(v: Option<string>) { v.Some? && v.value != [] }

  /** `LandingPage.jsx` lines 68-73: the trimmed address if it is non-empty and matches the pattern. */
  function ValidatedEmail(input: Option<string>): Option<string> {
    match input
    case None => None
    case Some(v) =>
      var t := Trim(v);
      if t != [] && EmailPattern(t) then Some(t) else None
  }

  /** An address is used exactly when its trimmed form is well formed, and the trimmed form is what is used. */
  lemma ValidatedEmailCharacterized(input: Option<string>)
    ensures ValidatedEmail(input).Some? <==> input.Some? && WellFormedAddress(Trim(input.value))
    ensures ValidatedEmail(input).Some? ==> ValidatedEmail(input).value == Trim(input.value)
  {
    if input.Some? {
      EmailPatternCharacterized(Trim(input.value));
    }
  }

  /** `LandingPage.jsx` lines 68-73 as they run: trim, refuse an empty address, refuse one the pattern rejects. */
  method Validate(input: Option<string>) returns (email: Option<string>)
    ensures email == ValidatedEmail(input)
  {
    if input.None? {
      return None;
    }
    var trimmed := Trim(input.value);
    if trimmed == [] {
      return None;
    }
    if !EmailPattern(trimmed) {
      return None;
    }
    return Some(trimmed);
  }

  predicate EmailJsConfigured(env: Env) { Truthy(env.serviceId) && Truthy(env.templateId) }

  /** `LandingPage.jsx` line 92: only a response with status 200 counts. */
  predicate EmailJsSucceeded(env: Env, reply: EmailJsReply) {
    EmailJsConfigured(env) && reply == EmailJsResolved(Some(200))
  }

  predicate BackendConfigured(env: Env) { env.apiBase != [] }

  /** `LandingPage.jsx` line 112: only a response with `ok` counts. */
  predicate BackendSucceeded(env: Env, reply: FetchReply) {
    BackendConfigured(env) && reply == FetchResolved(true)
  }

  /** The actions of one submission, in order. */
  function SubmitTrace(input: Option<string>, env: Env, emailjs: EmailJsReply, backend: FetchReply): seq<Action> {
    Trace(ValidatedEmail(input), env, emailjs, backend)
  }

  /** The actions of a submission whose address validated to `validated`. */
  function Trace(validated: Option<string>, env: Env, emailjs: EmailJsReply, backend: FetchReply): (trace: seq<Action>)
    // every request carries the trimmed, validated address
    ensures forall a :: a in trace && a.SendEmailJs? ==> validated == Some(a.userEmail)
    ensures forall a :: a in trace && a.PostSubscribe? ==> validated == Some(a.email)
  {
    match validated
    case None => [SetStatus(Invalid)]
    case Some(email) =>
      var succeeded := EmailJsSucceeded(env, emailjs) || BackendSucceeded(env, backend);
      [SetStatus(Sending), SetSending(true)]
      + Deliveries(email, env)
      + Settled(succeeded)
  }

  /** `LandingPage.jsx` lines 126-133: `sending` off, then the final status, and the form reset on success. */
  function Settled(succeeded: bool): seq<Action> {
    [SetSending(false), SetStatus(if succeeded then Success else Error)] + (if succeeded then [ResetForm] else [])
  }

  /** The requests attempted for a valid address: EmailJS first, then the backend. */
  function Deliveries(email: string, env: Env): seq<Action> {
    (if EmailJsConfigured(env) then [SendEmailJs(env.serviceId.value, env.templateId.value, email, env.publicKey)] else [])
    + (if BackendConfigured(env) then [PostSubscribe(env.apiBase + "/api/subscribe", email)] else [])
  }

  /** The component state: `status` and `sending`. */
  type State = (Status, bool)

  /** What one action does to the state: only the two setters change it. */
  function Step(st: State, a: Action): State {
    match a
    case SetStatus(s) => (s, st.1)
    case SetSending(b) => (st.0, b)
    case _ => st
  }

  /** The state a sequence of actions leaves. */
  function After(st: State, trace: seq<Action>): State
    decreases trace
  {
    if trace == [] then st else After(Step(st, trace[0]), trace[1..])
  }

  lemma {:induction false} AfterAppend(st: State, a: seq<Action>, b: seq<Action>)
    ensures After(st, a + b) == After(After(st, a), b)
    decreases a
  {
    if a != [] {
      assert (a + b)[0] == a[0] && (a + b)[1..] == a[1..] + b;
      AfterAppend(Step(st, a[0]), a[1..], b);
    } else {
      assert a + b == b;
    }
  }

  /** Actions other than the two setters leave the state as it is. */
  lemma {:induction false} AfterNeutral(st: State, trace: seq<Action>)
    requires forall i :: 0 <= i < |trace| ==> !trace[i].SetStatus? && !trace[i].SetSending?
    ensures After(st, trace) == st
    decreases trace
  {
    if trace != [] {
      AfterNeutral(st, trace[1..]);
    }
  }

  lemma AfterTwo(st: State, a: Action, b: Action)
    ensures After(st, [a, b]) == Step(Step(st, a), b)
  {
    assert [a, b][0] == a && [a, b][1..] == [b] && [b][1..] == [];
    assert After(st, [a, b]) == After(Step(st, a), [b]);
    assert After(Step(st, a), [b]) == After(Step(Step(st, a), b), []);
  }

  /**
   * Replaying the actions of a submission: an invalid address only marks the form
   * invalid; a valid one ends with `sending` false and the status success exactly
   * when one of the two channels succeeded, error otherwise.
   */
  lemma TraceOutcome(st: State, validated: Option<string>, env: Env, emailjs: EmailJsReply, backend: FetchReply)
    ensures validated.None? ==> After(st, Trace(validated, env, emailjs, backend)) == (Invalid, st.1)
    ensures validated.Some? ==>
              var (s, d) := After(st, Trace(validated, env, emailjs, backend));
              !d && (s == Success || s == Error) &&
              (s == Success <==> EmailJsSucceeded(env, emailjs) || BackendSucceeded(env, backend))
  {
    if validated.Some? {
      var succeeded := EmailJsSucceeded(env, emailjs) || BackendSucceeded(env, backend);
      var final := if succeeded then Success else Error;
      var head := [SetStatus(Sending), SetSending(true)];
      var mid := Deliveries(validated.value, env);
      var end := [SetSending(false), SetStatus(final)];
      var reset: seq<Action> := if succeeded then [ResetForm] else [];
      assert Trace(validated, env, emailjs, backend) == head + mid + (end + reset);
      assert Trace(validated, env, emailjs, backend) == head + mid + end + reset;
      AfterAppend(st, head + mid + end, reset);
      AfterAppend(st, head + mid, end);
      AfterAppend(st, head, mid);
      AfterTwo(st, SetStatus(Sending), SetSending(true));
      AfterNeutral((Sending, true), mid);
      AfterTwo((Sending, true), SetSending(false), SetStatus(final));
      AfterNeutral((final, false), reset);
    } else {
      assert [SetStatus(Invalid)][1..] == [];
    }
  }

  /**
   * While the requests run, the form shows "sending": the status and `sending` are
   * set before the first request, and no request changes them.
   */
  lemma RequestsRunWhileSending(st: State, validated: Option<string>, env: Env, emailjs: EmailJsReply, backend: FetchReply)
    ensures var t := Trace(validated, env, emailjs, backend);
            validated.Some? ==> t[..2] == [SetStatus(Sending), SetSending(true)] && After(st, t[..2]) == (Sending, true)
    ensures var t := Trace(validated, env, emailjs, backend);
            forall i :: 0 <= i < |t| && (t[i].SendEmailJs? || t[i].PostSubscribe?) ==> After(st, t[..i]) == (Sending, true)
  {
    var t := Trace(validated, env, emailjs, backend);
    if validated.Some? {
      var head := [SetStatus(Sending), SetSending(true)];
      var mid := Deliveries(validated.value, env);
      assert t == head + mid + Settled(EmailJsSucceeded(env, emailjs) || BackendSucceeded(env, backend));
      assert t[..2] == head;
      AfterTwo(st, SetStatus(Sending), SetSending(true));
      forall i | 0 <= i < |t| && (t[i].SendEmailJs? || t[i].PostSubscribe?)
        ensures After(st, t[..i]) == (Sending, true)
      {
        assert 2 <= i < 2 + |mid|;
        var part := mid[..i - 2];
        assert t[..i] == head + part;
        AfterAppend(st, head, part);
        AfterNeutral((Sending, true), part);
      }
    }
  }

  /** A request goes out only for a valid address and a configured channel; the form is reset only on success. */
  lemma DeliveriesAttempted(validated: Option<string>, env: Env, emailjs: EmailJsReply, backend: FetchReply)
    ensures (exists a :: a in Trace(validated, env, emailjs, backend) && a.SendEmailJs?) <==>
              validated.Some? && EmailJsConfigured(env)
    ensures (exists a :: a in Trace(validated, env, emailjs, backend) && a.PostSubscribe?) <==>
              validated.Some? && BackendConfigured(env)
    ensures ResetForm in Trace(validated, env, emailjs, backend) <==>
              validated.Some? && (EmailJsSucceeded(env, emailjs) || BackendSucceeded(env, backend))
  {
    var t := Trace(validated, env, emailjs, backend);
    if validated.Some? {
      var mid := Deliveries(validated.value, env);
      if EmailJsConfigured(env) {
        assert mid[0] in t;
      }
      if BackendConfigured(env) {
        assert mid[|mid| - 1] in t;
      }
    }
  }

  /** A failing channel, whether it threw or answered wrongly, changes nothing about the other one or the result. */
  lemma ChannelFailureIsolated(input: Option<string>, env: Env, e1: EmailJsReply, e2: EmailJsReply,
                               b1: FetchReply, b2: FetchReply)
    requires !EmailJsSucceeded(env, e1) && !EmailJsSucceeded(env, e2)
    requires !BackendSucceeded(env, b1) && !BackendSucceeded(env, b2)
    ensures SubmitTrace(input, env, e1, b1) == SubmitTrace(input, env, e2, b2)
  {
  }

  /** The `SubscribeBlock` component's state. */
  class SubscribeBlock {
    var status: Status
    var sending: bool
    /** Every action performed so far, oldest first. */
    var actions: seq<Action>

    constructor ()
      ensures status == Idle && !sending && actions == []
    {
      status := Idle;
      sending := false;
      actions := [];
    }

    /** `onSubmit` for the address typed in the form (None when the field has no value). */
    method OnSubmit(input: Option<string>, env: Env, emailjs: EmailJsReply, backend: FetchReply)
      modifies this
      ensures actions == old(actions) + SubmitTrace(input, env, emailjs, backend)
      ensures (status, sending) == After(old((status, sending)), SubmitTrace(input, env, emailjs, backend))
    {
      ghost var st := (status, sending);
      var validated := Validate(input);
      TraceOutcome(st, validated, env, emailjs, backend);
      if validated.None? {
        status := Invalid;
        actions := actions + [SetStatus(Invalid)];
        return;
      }
      var email := validated.value;
      ghost var start := actions;

      status := Sending;
      sending := true;
      actions := actions + [SetStatus(Sending), SetSending(true)];

      var emailjsSuccess, backendSuccess := TryDeliveries(email, env, emailjs, backend);
      ghost var sent := [SetStatus(Sending), SetSending(true)] + Deliveries(email, env);
      assert actions == start + sent;

      Settle(emailjsSuccess || backendSuccess);
      assert actions == start + (sent + Settled(emailjsSuccess || backendSuccess));
    }

    /** The two try blocks of `LandingPage.jsx` lines 88-124: each channel is tried when configured, and a throw only fails that channel. */
    method TryDeliveries(email: string, env: Env, emailjs: EmailJsReply, backend: FetchReply)
      returns (emailjsSuccess: bool, backendSuccess: bool)
      modifies this
      ensures actions == old(actions) + Deliveries(email, env)
      ensures status == old(status) && sending == old(sending)
      ensures emailjsSuccess <==> EmailJsSucceeded(env, emailjs)
      ensures backendSuccess <==> BackendSucceeded(env, backend)
    {
      emailjsSuccess := false;
      backendSuccess := false;
      if EmailJsConfigured(env) {
        actions := actions + [SendEmailJs(env.serviceId.value, env.templateId.value, email, env.publicKey)];
        match emailjs
        case EmailJsThrew =>
        case EmailJsResolved(code) =>
          if code == Some(200) {
            emailjsSuccess := true;
          }
      }
      if env.apiBase != [] {
        actions := actions + [PostSubscribe(env.apiBase + "/api/subscribe", email)];
        match backend
        case FetchThrew =>
        case FetchResolved(ok) =>
          if ok {
            backendSuccess := true;
          }
      }
    }

    /** `LandingPage.jsx` lines 126-133. */
    method Settle(succeeded: bool)
      modifies this
      ensures actions == old(actions) + Settled(succeeded)
      ensures status == (if succeeded then Success else Error) && !sending
    {
      sending := false;
      actions := actions + [SetSending(false)];
      if succeeded {
        status := Success;
        actions := actions + [SetStatus(Success)];
        actions := actions + [ResetForm];
      } else {
        status := Error;
        actions := actions + [SetStatus(Error)];
      }
    }
  }
}
