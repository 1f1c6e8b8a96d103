/** The event helpers and the event filter of cmd/slackhub/main.go: dotted
    lookups in the event payload, the action and branch of an event, and
    the conditions under which an event produces no message.  A type
    assertion that fails without the `ok` form panics in Go; here it gives
    `Panic`. */
module Events {
  import opened Strings
  import opened JsonValues

  /** The outcome of a helper that may panic. */
  datatype Outcome<T> = Value(value: T) | Panic

  /** What `EventContext` holds that the helpers read: the event name (such
      as `pull_request`) and the decoded payload. */
  datatype EventContext = EventContext(name: string, event: Json)

  // ---------------------------------------------------------------------
  // Dotted lookup
  // ---------------------------------------------------------------------

  /** `get`: a non-object gives `nil`; otherwise the key is split at `.`, the
      first segment is looked up, and the rest, joined again, is looked up
      in what was found. */
  function Get(v: Json, key: string): (r: Json)
    ensures !v.Obj? ==> r == Null
    ensures v.Obj? && '.' !in key ==> r == Lookup(v.fields, key)
    decreases |key|
  {
    if !v.Obj? then Null
    else
      var ks := Split(key, '.');
      var mv := Lookup(v.fields, ks[0]);
      if |ks| == 1 then mv
      else
        RestShorter(key);
        Get(mv, Join(ks[1..], '.'))
  }

  /** The rest of a dotted key, joined again, is shorter than the key. */
  lemma RestShorter(key: string)
    requires |Split(key, '.')| > 1
    ensures |Join(Split(key, '.')[1..], '.')| < |key|
  {
    var ks := Split(key, '.');
    JoinSplit(key, '.');
    assert ks == [ks[0]] + ks[1..];
    assert Join(ks, '.') == ks[0] + ['.'] + Join(ks[1..], '.');
  }

  /** The reference lookup: follow the path one object field at a time. */
  function Walk(v: Json, path: seq<string>): Json
    decreases |path|
  {
    if |path| == 0 then v
    else if !v.Obj? then Null
    else Walk(Lookup(v.fields, path[0]), path[1..])
  }

  /** `get` follows the segments of its key. */
  lemma {:induction false} GetWalk(v: Json, key: string)
    ensures Get(v, key) == Walk(v, Split(key, '.'))
    decreases |key|
  {
    var ks := Split(key, '.');
    if v.Obj? && |ks| > 1 {
      var rest := Join(ks[1..], '.');
      RestShorter(key);
      SplitPieces(key, '.');
      assert forall i | 0 <= i < |ks[1..]| :: '.' !in ks[1..][i] by {
        assert forall i | 0 <= i < |ks[1..]| :: ks[1..][i] == ks[i + 1];
      }
      SplitJoin(ks[1..], '.');
      GetWalk(Lookup(v.fields, ks[0]), rest);
    }
  }

  /** The key of a path: its segments joined with `.`. */
  function PathKey(path: seq<string>): string {
    Join(path, '.')
  }

  /** Looking up a path written as a dotted key walks that path, provided
      no segment holds a `.`. */
  lemma GetPath(v: Json, path: seq<string>)
    requires |path| > 0 && forall i | 0 <= i < |path| :: '.' !in path[i]
    ensures Get(v, PathKey(path)) == Walk(v, path)
  {
    GetWalk(v, PathKey(path));
    SplitJoin(path, '.');
  }

  // ---------------------------------------------------------------------
  // Action and branch
  // ---------------------------------------------------------------------

  /** `QualifiedAction`: the event name, followed by `.` and the action when
      the payload is an object with an `action` field, which must then be a
      string. */
  function QualifiedAction(ec: EventContext): (r: Outcome<string>)
    ensures r.Panic? <==> ec.event.Obj? && "action" in ec.event.fields && !ec.event.fields["action"].Str?
    ensures r.Value? ==> HasPrefix(r.value, ec.name)
    ensures ec.event.Obj? && "action" in ec.event.fields && ec.event.fields["action"].Str? ==>
      r == Value(ec.name + "." + ec.event.fields["action"].s)
    ensures !(ec.event.Obj? && "action" in ec.event.fields) ==> r == Value(ec.name)
  {
    if ec.event.Obj? && "action" in ec.event.fields then
      match ec.event.fields["action"]
      case Str(a) => Value(ec.name + "." + a)
      case _ => Panic
    else Value(ec.name)
  }

  /** `Action`: the action field when it is not `nil`, `default` otherwise. */
  function Action(ec: EventContext): (r: Outcome<string>)
    ensures r.Panic? <==> !Get(ec.event, "action").Str? && Get(ec.event, "action") != Null
    ensures Get(ec.event, "action").Str? ==> r == Value(Get(ec.event, "action").s)
    ensures Get(ec.event, "action") == Null ==> r == Value("default")
  {
    match Get(ec.event, "action")
    case Null => Value("default")
    case Str(a) => Value(a)
    case _ => Panic
  }

  /** When the payload carries a string action, the qualified action is the
      name, a dot and the action; with no action field it is the bare name
      and the action is `default`.  A `null` action is where the two part
      ways: the qualified action panics while the action is `default`. */
  lemma ActionAgreement(ec: EventContext)
    ensures ec.event.Obj? && "action" in ec.event.fields && ec.event.fields["action"].Str? ==>
      QualifiedAction(ec) == Value(ec.name + "." + Action(ec).value)
    ensures !(ec.event.Obj? && "action" in ec.event.fields) ==>
      QualifiedAction(ec) == Value(ec.name) && Action(ec) == Value("default")
    ensures ec.event.Obj? && "action" in ec.event.fields && ec.event.fields["action"] == Null ==>
      QualifiedAction(ec).Panic? && Action(ec) == Value("default")
  {
    assert Split("action", '.') == ["action"] by {
      assert '.' !in "action";
    }
  }

  /** The prefix of a branch reference. */
  const HeadsPrefix := "refs/heads/"

  /** `Branch`: the `ref` field with the branch prefix removed (`ref[11:]`),
      or empty when the field is missing, not a string, or not a branch. */
  function Branch(ec: EventContext): (b: string)
    ensures Get(ec.event, "ref").Str? && HasPrefix(Get(ec.event, "ref").s, HeadsPrefix) ==>
      Get(ec.event, "ref").s == HeadsPrefix + b
    ensures !(Get(ec.event, "ref").Str? && HasPrefix(Get(ec.event, "ref").s, HeadsPrefix)) ==> b == ""
  {
    var ref := if Get(ec.event, "ref").Str? then Get(ec.event, "ref").s else "";
    if HasPrefix(ref, HeadsPrefix) then
      assert |HeadsPrefix| == 11;
      assert ref == ref[..11] + ref[11..];
      ref[11..]
    else ""
  }

  /** A push to branch `b` has branch `b`. */
  lemma BranchOfRef(name: string, fields: map<string, Json>, b: string)
    requires "ref" in fields && fields["ref"] == Str(HeadsPrefix + b)
    ensures Branch(EventContext(name, Obj(fields))) == b
  {
    assert Split("ref", '.') == ["ref"] by {
      assert '.' !in "ref";
    }
    assert (HeadsPrefix + b)[..|HeadsPrefix|] == HeadsPrefix;
  }

  // ---------------------------------------------------------------------
  // The event filter
  // ---------------------------------------------------------------------

  /** The conditions of `NewEventFilter`.  `NonPushWithoutBranch` is the
      fourth condition as written; `PushWithoutBranch` is what its comment
      says it does, ignore pushes that are not to a branch. */
  datatype Cond =
    | DraftOpened
    | UnmergedClosed
    | EmptyReview
    | NonPushWithoutBranch
    | PushWithoutBranch

  /** Go's `x == true`, `x == false`, `x == "s"` on an `any`: the same
      dynamic type and the same value. */
  predicate IsBool(v: Json, b: bool) {
    v == Bool(b)
  }

  predicate IsString(v: Json, s: string) {
    v == Str(s)
  }

  /** One condition; the first three ask for the qualified action first and
      panic with it. */
  function Holds(c: Cond, ec: EventContext): (r: Outcome<bool>)
    ensures r.Panic? <==> c in {DraftOpened, UnmergedClosed, EmptyReview} && QualifiedAction(ec).Panic?
  {
    match c
    case DraftOpened =>
      (match QualifiedAction(ec)
       case Panic => Panic
       case Value(q) => Value(q == "pull_request.opened" && IsBool(Get(ec.event, "draft"), true)))
    case UnmergedClosed =>
      (match QualifiedAction(ec)
       case Panic => Panic
       case Value(q) => Value(q == "pull_request.closed" && IsBool(Get(ec.event, "merged"), false)))
    case EmptyReview =>
      (match QualifiedAction(ec)
       case Panic => Panic
       case Value(q) =>
         if q != "pull_request_review.submitted" then Value(false)
         else if IsString(Get(ec.event, "review.state"), "approved") then Value(false)
         else
           var body := Get(ec.event, "review.body");
           Value(body == Null || IsString(body, "")))
    case NonPushWithoutBranch => Value(ec.name != "push" && Branch(ec) == "")
    case PushWithoutBranch => Value(ec.name == "push" && Branch(ec) == "")
  }

  /** The filter as `NewEventFilter` builds it. */
  const WrittenFilter := [DraftOpened, UnmergedClosed, EmptyReview, NonPushWithoutBranch]

  /** The filter with the fourth condition as its comment describes it. */
  const Filter := [DraftOpened, UnmergedClosed, EmptyReview, PushWithoutBranch]

  /** `EventFilter.Ignore`: the conditions in order; the first that holds
      makes the event ignored, and a panic in one ends the walk. */
  method Ignore(conds: seq<Cond>, ec: EventContext) returns (r: Outcome<bool>)
    ensures r == Value(true) <==>
      exists i | 0 <= i < |conds| :: Holds(conds[i], ec) == Value(true) && FirstUndecided(conds, ec, i)
    ensures r == Value(false) <==> forall i | 0 <= i < |conds| :: Holds(conds[i], ec) == Value(false)
    ensures r.Panic? <==>
      exists i | 0 <= i < |conds| :: Holds(conds[i], ec).Panic? && FirstUndecided(conds, ec, i)
  {
    var i := 0;
    while i < |conds|
      invariant 0 <= i <= |conds|
      invariant FirstUndecided(conds, ec, i)
    {
      var h := Holds(conds[i], ec);
      if h.Panic? {
        return Panic;
      }
      if h.value {
        return Value(true);
      }
      i := i + 1;
    }
    return Value(false);
  }

  /** Every condition before `i` was evaluated and did not hold. */
  predicate FirstUndecided(conds: seq<Cond>, ec: EventContext, i: nat)
    requires i <= |conds|
  {
    forall j | 0 <= j < i :: Holds(conds[j], ec) == Value(false)
  }

  /** The reference: an event is ignored when some condition holds. */
  predicate Ignored(conds: seq<Cond>, ec: EventContext) {
    exists i | 0 <= i < |conds| :: Holds(conds[i], ec) == Value(true)
  }

  /** Both filters panic exactly when the qualified action does, and
      otherwise ignore an event exactly when one of their conditions holds. */
  method IgnoreEvent(ec: EventContext) returns (r: Outcome<bool>)
    ensures r.Panic? <==> QualifiedAction(ec).Panic?
    ensures r.Value? ==> (r.value <==> Ignored(Filter, ec))
  {
    r := Ignore(Filter, ec);
    if QualifiedAction(ec).Panic? {
      assert Holds(Filter[0], ec).Panic? && FirstUndecided(Filter, ec, 0);
    } else {
      assert forall i | 0 <= i < |Filter| :: Holds(Filter[i], ec).Value?;
    }
  }

  /** The event filter as written: the fourth condition ignores every event
      other than a push whose payload has no branch reference. */
  method IgnoreEventAsWritten(ec: EventContext) returns (r: Outcome<bool>)
    ensures r.Panic? <==> QualifiedAction(ec).Panic?
    ensures r.Value? ==> (r.value <==> Ignored(WrittenFilter, ec))
  {
    r := Ignore(WrittenFilter, ec);
    if QualifiedAction(ec).Panic? {
      assert Holds(WrittenFilter[0], ec).Panic? && FirstUndecided(WrittenFilter, ec, 0);
    } else {
      assert forall i | 0 <= i < |WrittenFilter| :: Holds(WrittenFilter[i], ec).Value?;
    }
  }

  /** As written, a newly opened, ready pull request is filtered out (its
      payload has no top-level `ref`), and a push of a tag is not. */
  lemma WrittenFilterMisfires()
    ensures Ignored(WrittenFilter, EventContext("pull_request", Obj(map["action" := Str("opened"), "draft" := Bool(false)])))
    ensures !Ignored(WrittenFilter, EventContext("push", Obj(map["ref" := Str("refs/tags/v1")])))
  {
    var pr := EventContext("pull_request", Obj(map["action" := Str("opened"), "draft" := Bool(false)]));
    assert Split("ref", '.') == ["ref"] by {
      assert '.' !in "ref";
    }
    assert Branch(pr) == "";
    assert Holds(WrittenFilter[3], pr) == Value(true);
    var push := EventContext("push", Obj(map["ref" := Str("refs/tags/v1")]));
    assert QualifiedAction(push) == Value("push");
    assert forall i | 0 <= i < |WrittenFilter| :: Holds(WrittenFilter[i], push) == Value(false);
  }

  /** With the fourth condition as intended, an event from a push is
      ignored exactly when it is not to a branch; every other event escapes
      that condition. */
  lemma PushWithoutBranchIntended(ec: EventContext)
    ensures Holds(PushWithoutBranch, ec) == Value(true) <==> ec.name == "push" && Branch(ec) == ""
    ensures ec.name != "push" ==> Holds(PushWithoutBranch, ec) == Value(false)
    ensures ec.name == "push" && QualifiedAction(ec).Value? ==>
      (Ignored(Filter, ec) <==> Branch(ec) == "")
  {
    if ec.name == "push" && QualifiedAction(ec).Value? {
      if Branch(ec) == "" {
        assert Holds(Filter[3], ec) == Value(true);
      } else {
        PushNotOtherwise(ec);
      }
    }
  }

  /** A push with a usable action is caught by none of the pull-request
      conditions. */
  lemma PushNotOtherwise(ec: EventContext)
    requires ec.name == "push" && QualifiedAction(ec).Value?
    ensures forall i | 0 <= i < 3 :: Holds(Filter[i], ec) == Value(false)
  {
    var q := QualifiedAction(ec).value;
    assert HasPrefix(q, "push");
    assert q[2] == "push"[2] == 's';
    assert "pull_request.opened"[2] == 'l';
    assert "pull_request.closed"[2] == 'l';
    assert "pull_request_review.submitted"[2] == 'l';
  }
}
