/**
  Finding or creating the run context of a workflow: `get_context_by_name`, which is
  memoised by `functools.lru_cache`, and `get_or_create_context_with_type` above it.
  A context's id is its position in the append-only context table.
 */
module Contexts {
  import opened Wrappers
  import opened Lru

  const MEMO_SIZE: nat := 128

  datatype Context = Context(name: string, typ: string)

  datatype Error = NotFound | Ambiguous | WrongType | AlreadyExists

  type Memo = seq<Entry<string, nat>>

  datatype Call = Call(name: string, typ: string)

  datatype Outcome = Outcome(contexts: seq<Context>, memo: Memo, result: Result<nat, Error>)

  /** The ids of all contexts called `name`, in table order. */
  function Matches(contexts: seq<Context>, name: string): seq<nat> {
    if contexts == [] then []
    else
      var last := |contexts| - 1;
      Matches(contexts[..last], name) + if contexts[last].name == name then [last] else []
  }

  function Scan(contexts: seq<Context>, name: string): Result<nat, Error> {
    var ids := Matches(contexts, name);
    if |ids| == 0 then Err(NotFound) else if |ids| == 1 then Ok(ids[0]) else Err(Ambiguous)
  }

  /** The store refuses a second context with the same type and name. */
  function Create(contexts: seq<Context>, call: Call): (seq<Context>, Result<nat, Error>) {
    if Context(call.name, call.typ) in contexts then (contexts, Err(AlreadyExists))
    else (contexts + [Context(call.name, call.typ)], Ok(|contexts|))
  }

  /** What get-or-create means without any memory of earlier calls. */
  function FreshGetOrCreate(contexts: seq<Context>, call: Call): (r: (seq<Context>, Result<nat, Error>))
    ensures contexts <= r.0
  {
    match Scan(contexts, call.name)
    case Err(_) => Create(contexts, call)
    case Ok(id) =>
      MatchesAreNamed(contexts, call.name);
      assert Matches(contexts, call.name)[0] in Matches(contexts, call.name);
      if contexts[id].typ != call.typ then (contexts, Err(WrongType)) else (contexts, Ok(id))
  }

  ghost predicate UniqueNames(contexts: seq<Context>) {
    forall i, j :: 0 <= i < j < |contexts| ==> contexts[i].name != contexts[j].name
  }

  predicate NamedAt(contexts: seq<Context>, id: int, name: string) {
    0 <= id < |contexts| && contexts[id].name == name
  }

  /** Every memoised answer is what a scan would say now; in particular no miss is memoised. */
  ghost predicate MemoAgrees(contexts: seq<Context>, memo: Memo) {
    && Valid(memo, MEMO_SIZE)
    && forall name :: Has(memo, name) ==> NamedAt(contexts, Value(memo, name), name)
  }

  lemma {:induction false} MatchesAreNamed(contexts: seq<Context>, name: string)
    ensures forall id :: id in Matches(contexts, name) <==> 0 <= id < |contexts| && contexts[id].name == name
  {
    if contexts != [] {
      MatchesAreNamed(contexts[..|contexts| - 1], name);
    }
  }

  lemma {:induction false} MatchesAtMostOne(contexts: seq<Context>, name: string)
    requires UniqueNames(contexts)
    ensures |Matches(contexts, name)| <= 1
    ensures forall i :: 0 <= i < |Matches(contexts, name)| ==> NamedAt(contexts, Matches(contexts, name)[i], name)
  {
    if contexts != [] {
      var front := contexts[..|contexts| - 1];
      MatchesAtMostOne(front, name);
      assert |Matches(front, name)| == 1 ==> NamedAt(front, Matches(front, name)[0], name);
    }
  }

  /** With unique names the scan finds the one context of that name, or reports it missing. */
  lemma ScanFinds(contexts: seq<Context>, name: string)
    requires UniqueNames(contexts)
    ensures forall id :: 0 <= id < |contexts| && contexts[id].name == name ==> Scan(contexts, name) == Ok(id)
    ensures Scan(contexts, name).Ok? || Scan(contexts, name) == Err(NotFound)
    ensures Scan(contexts, name) == Err(NotFound) <==> forall id :: 0 <= id < |contexts| ==> contexts[id].name != name
  {
    var ids := Matches(contexts, name);
    MatchesAreNamed(contexts, name);
    MatchesAtMostOne(contexts, name);
  }

  lemma FreshGetOrCreateKeepsUnique(contexts: seq<Context>, call: Call)
    requires UniqueNames(contexts)
    ensures var (after, r) := FreshGetOrCreate(contexts, call);
            && UniqueNames(after)
            && (r.Ok? ==> r.value < |after| && after[r.value] == Context(call.name, call.typ))
            && (r.Err? ==> r.error == WrongType && after == contexts)
  {
    ScanFinds(contexts, call.name);
    MatchesAreNamed(contexts, call.name);
  }

  /** Once answered, a name keeps its context: asking again finds it and adds nothing, whatever came after. */
  lemma AnswerIsStable(contexts: seq<Context>, call: Call, later: seq<Context>)
    requires UniqueNames(contexts) && FreshGetOrCreate(contexts, call).1.Ok?
    requires UniqueNames(FreshGetOrCreate(contexts, call).0 + later)
    ensures var (after, r) := FreshGetOrCreate(contexts, call);
            FreshGetOrCreate(after + later, call) == (after + later, r)
  {
    var (after, r) := FreshGetOrCreate(contexts, call);
    FreshGetOrCreateKeepsUnique(contexts, call);
    assert (after + later)[r.value] == Context(call.name, call.typ);
    ScanFinds(after + later, call.name);
  }

  /* ---- The memoised functions ---- */

  function GetContextByName(contexts: seq<Context>, memo: Memo, name: string): Outcome {
    if Has(memo, name) then Outcome(contexts, Touch(memo, name), Ok(Value(memo, name)))
    else
      var r := Scan(contexts, name);
      Outcome(contexts, if r.Ok? then Put(memo, MEMO_SIZE, name, r.value) else memo, r)
  }

  function GetOrCreate(contexts: seq<Context>, memo: Memo, call: Call): Outcome
    requires MemoAgrees(contexts, memo)
  {
    var found := GetContextByName(contexts, memo, call.name);
    match found.result
    case Err(_) =>
      var (after, r) := Create(contexts, call);
      Outcome(after, found.memo, r)
    case Ok(id) =>
      MatchesAreNamed(contexts, call.name);
      assert !Has(memo, call.name) ==> Matches(contexts, call.name)[0] in Matches(contexts, call.name);
      assert NamedAt(contexts, id, call.name);
      if contexts[id].typ != call.typ then found.(result := Err(WrongType)) else found
  }

  lemma LookupAgrees(contexts: seq<Context>, memo: Memo, name: string)
    requires UniqueNames(contexts) && MemoAgrees(contexts, memo)
    ensures GetContextByName(contexts, memo, name).result == Scan(contexts, name)
    ensures MemoAgrees(contexts, GetContextByName(contexts, memo, name).memo)
  {
    ScanFinds(contexts, name);
    MatchesAreNamed(contexts, name);
    if Has(memo, name) {
      forall x { TouchKeeps(memo, MEMO_SIZE, name, x); }
      TouchKeeps(memo, MEMO_SIZE, name, name);
    } else if Scan(contexts, name).Ok? {
      var id := Scan(contexts, name).value;
      forall x { PutKeeps(memo, MEMO_SIZE, name, id, x); }
      PutKeeps(memo, MEMO_SIZE, name, id, name);
    }
  }

  lemma GetOrCreateAgrees(contexts: seq<Context>, memo: Memo, call: Call)
    requires UniqueNames(contexts) && MemoAgrees(contexts, memo)
    ensures var o := GetOrCreate(contexts, memo, call);
            && (o.contexts, o.result) == FreshGetOrCreate(contexts, call)
            && UniqueNames(o.contexts) && MemoAgrees(o.contexts, o.memo)
  {
    LookupAgrees(contexts, memo, call.name);
    FreshGetOrCreateKeepsUnique(contexts, call);
  }

  /* ---- Whole sequences of calls, with contexts of other names appearing in between ---- */

  datatype Action = Ask(call: Call) | Foreign(context: Context)

  /** Other writers may add contexts, but never a name that is already taken. */
  ghost predicate Fair(contexts: seq<Context>, actions: seq<Action>)
    decreases |actions|
  {
    actions == [] ||
    match actions[0]
    case Ask(call) => Fair(FreshGetOrCreate(contexts, call).0, actions[1..])
    case Foreign(c) =>
      && (forall i :: 0 <= i < |contexts| ==> contexts[i].name != c.name)
      && Fair(contexts + [c], actions[1..])
  }

  function FreshAnswers(contexts: seq<Context>, actions: seq<Action>): seq<Result<nat, Error>>
    decreases |actions|
  {
    if actions == [] then []
    else match actions[0]
      case Ask(call) =>
        var (after, r) := FreshGetOrCreate(contexts, call);
        [r] + FreshAnswers(after, actions[1..])
      case Foreign(c) => FreshAnswers(contexts + [c], actions[1..])
  }

  /** The long-lived client: the context table it talks to and the memo it keeps. */
  class ContextClient {
    var contexts: seq<Context>
    var memo: Memo

    ghost predicate Valid()
      reads this
    {
      UniqueNames(contexts) && MemoAgrees(contexts, memo)
    }

    constructor (contexts: seq<Context>)
      requires UniqueNames(contexts)
      ensures Valid() && this.contexts == contexts && memo == []
    {
      this.contexts := contexts;
      memo := [];
    }

    method Lookup(name: string) returns (r: Result<nat, Error>)
      requires Valid()
      modifies this`memo
      ensures Valid()
      ensures r == Scan(contexts, name)
      ensures memo == GetContextByName(contexts, old(memo), name).memo
    {
      LookupAgrees(contexts, memo, name);
      if Has(memo, name) {
        r := Ok(Value(memo, name));
        memo := Touch(memo, name);
      } else {
        r := Scan(contexts, name);
        if r.Ok? {
          memo := Put(memo, MEMO_SIZE, name, r.value);
        }
      }
    }

    method GetOrCreateContext(call: Call) returns (r: Result<nat, Error>)
      requires Valid()
      modifies this
      ensures Valid()
      ensures (contexts, r) == FreshGetOrCreate(old(contexts), call)
      ensures Outcome(contexts, memo, r) == GetOrCreate(old(contexts), old(memo), call)
    {
      GetOrCreateAgrees(contexts, memo, call);
      ScanFinds(contexts, call.name);
      MatchesAreNamed(contexts, call.name);
      var found := Lookup(call.name);
      if found.Err? {
        if Context(call.name, call.typ) in contexts {
          return Err(AlreadyExists);
        }
        contexts := contexts + [Context(call.name, call.typ)];
        return Ok(|contexts| - 1);
      }
      if contexts[found.value].typ != call.typ {
        return Err(WrongType);
      }
      return found;
    }

    /** Any sequence of calls gets the answers that rescanning every time would give. */
    method Serve(actions: seq<Action>) returns (answers: seq<Result<nat, Error>>)
      requires Valid() && Fair(contexts, actions)
      modifies this
      ensures Valid() && old(contexts) <= contexts
      ensures answers == FreshAnswers(old(contexts), actions)
    {
      answers := [];
      var i := 0;
      while i < |actions|
        invariant 0 <= i <= |actions|
        invariant Valid() && old(contexts) <= contexts
        invariant Fair(contexts, actions[i..])
        invariant answers + FreshAnswers(contexts, actions[i..]) == FreshAnswers(old(contexts), actions)
      {
        assert actions[i..][1..] == actions[i + 1..];
        match actions[i] {
          case Ask(call) =>
            var r := GetOrCreateContext(call);
            answers := answers + [r];
          case Foreign(c) =>
            contexts := contexts + [c];
        }
        i := i + 1;
      }
    }
  }
}
