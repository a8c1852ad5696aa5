/** Option and a Ruby-exception-like outcome. */
module Wrappers {

  datatype Option<+T> = None | Some(value: T) {
    function GetOr(default: T): T {
      match this
      case Some(v) => v
      case None => default
    }
  }

  /** The errors the analyzer raises, by origin. */
  datatype Error =
    | NotOpen                                          // 'IPA is not open'
    | ProvisionNotFound(ipaPath: string, entryPath: string)
    | InfoPlistNotFound(ipaPath: string)
    | NilContent                                       // `nil[:content]` on a rescued sub-record
    | PayloadNotDirectory                              // dir.entries('Payload') without a Payload/ entry
    | InvalidIpa                                       // 'File is not a valid IPA'
    | NoAppFolder                                      // 'No app folder found in the IPA'

  /** The text a raised error carries; a missing file's message ends with the path it names. */
  function Message(e: Error): (r: string)
    ensures e.InfoPlistNotFound? ==> |r| >= |e.ipaPath| && r[|r| - |e.ipaPath|..] == e.ipaPath
    ensures e.ProvisionNotFound? ==> |r| > |e.entryPath| && r[|r| - |e.entryPath| - 1..] == e.entryPath + ")"
  {
    match e
    case NotOpen => "IPA is not open"
    case ProvisionNotFound(ipa, p) =>
      "Embedded mobile provisioning file not found in (" + ipa + ") at path (" + p + ")"
    case InfoPlistNotFound(ipa) => "File 'Info.plist' not found in " + ipa
    case NilContent => "undefined method `[]' for nil:NilClass"
    case PayloadNotDirectory => "No such file or directory - Payload"
    case InvalidIpa => "File is not a valid IPA"
    case NoAppFolder => "No app folder found in the IPA"
  }

  /** A computation that either returns a value or raises. */
  datatype Outcome<+T> = Ok(value: T) | Raised(error: Error)

  /** The values already computed, put in front of what the remaining steps yield. */
  function Prepend<T>(done: seq<T>, rest: Outcome<seq<T>>): Outcome<seq<T>> {
    match rest
    case Raised(e) => Raised(e)
    case Ok(xs) => Ok(done + xs)
  }

  lemma PrependAssoc<T>(a: seq<T>, b: seq<T>, rest: Outcome<seq<T>>)
    ensures Prepend(a, Prepend(b, rest)) == Prepend(a + b, rest)
  {
    if rest.Ok? {
      assert a + (b + rest.value) == (a + b) + rest.value;
    }
  }

  /**
   * Steps taken one after the other, as an `each` loop whose body may raise:
   * the values in order, or the first raise.
   */
  function RunAll<T>(steps: seq<Outcome<T>>): (r: Outcome<seq<T>>)
    ensures r.Ok? ==> |r.value| == |steps|
  {
    if steps == [] then Ok([])
    else
      match steps[0]
      case Raised(e) => Raised(e)
      case Ok(v) => Prepend([v], RunAll(steps[1..]))
  }

  /** When nothing raises, the i-th value is the i-th step's. */
  lemma {:induction false} RunAllValues<T>(steps: seq<Outcome<T>>)
    requires RunAll(steps).Ok?
    ensures forall i :: 0 <= i < |steps| ==> steps[i] == Ok(RunAll(steps).value[i])
  {
    if steps != [] {
      RunAllValues(steps[1..]);
      var rest := RunAll(steps[1..]).value;
      assert RunAll(steps).value == [steps[0].value] + rest;
      forall i | 1 <= i < |steps|
        ensures steps[i] == Ok(RunAll(steps).value[i])
      {
        assert steps[1..][i - 1] == steps[i];
      }
    }
  }

  /** The run raises exactly the error of its first raising step. */
  lemma {:induction false} RunAllFirstRaise<T>(steps: seq<Outcome<T>>, i: nat)
    requires i < |steps| && steps[i].Raised?
    requires forall j :: 0 <= j < i ==> steps[j].Ok?
    ensures RunAll(steps) == Raised(steps[i].error)
  {
    if i > 0 {
      forall j | 0 <= j < i - 1
        ensures steps[1..][j].Ok?
      {
        assert steps[1..][j] == steps[j + 1];
      }
      RunAllFirstRaise(steps[1..], i - 1);
    }
  }

  /** A run raises exactly when one of its steps does. */
  lemma {:induction false} RunAllRaises<T>(steps: seq<Outcome<T>>)
    ensures RunAll(steps).Raised? <==> exists i :: 0 <= i < |steps| && steps[i].Raised?
  {
    if steps != [] {
      RunAllRaises(steps[1..]);
      if steps[0].Ok? && RunAll(steps[1..]).Raised? {
        var i :| 0 <= i < |steps| - 1 && steps[1..][i].Raised?;
        assert steps[i + 1] == steps[1..][i];
      }
      if steps[0].Ok? && RunAll(steps[1..]).Ok? {
        forall i | 1 <= i < |steps|
          ensures steps[i].Ok?
        {
          assert steps[i] == steps[1..][i - 1];
        }
      }
    }
  }

  /** The state before the first step of a loop over steps. */
  lemma RunAllStart<T>(steps: seq<Outcome<T>>)
    ensures RunAll(steps) == Prepend([], RunAll(steps[0..]))
  {
    assert steps[0..] == steps;
    if RunAll(steps).Ok? {
      assert [] + RunAll(steps).value == RunAll(steps).value;
    }
  }

  /** A step that yields v adds v to what the loop has collected. */
  lemma RunAllStep<T>(steps: seq<Outcome<T>>, i: nat, done: seq<T>, v: T)
    requires i < |steps| && steps[i] == Ok(v)
    requires RunAll(steps) == Prepend(done, RunAll(steps[i..]))
    ensures RunAll(steps) == Prepend(done + [v], RunAll(steps[i + 1..]))
  {
    assert steps[i..][0] == steps[i];
    assert steps[i..][1..] == steps[i + 1..];
    PrependAssoc(done, [v], RunAll(steps[i + 1..]));
  }

  /** A step that raises ends the loop with its error. */
  lemma RunAllStop<T>(steps: seq<Outcome<T>>, i: nat, done: seq<T>)
    requires i < |steps| && steps[i].Raised?
    requires RunAll(steps) == Prepend(done, RunAll(steps[i..]))
    ensures RunAll(steps) == Raised(steps[i].error)
  {
    assert steps[i..][0] == steps[i];
  }

  /** After the last step the loop has collected the whole run. */
  lemma RunAllDone<T>(steps: seq<Outcome<T>>, done: seq<T>)
    requires RunAll(steps) == Prepend(done, RunAll(steps[|steps|..]))
    ensures RunAll(steps) == Ok(done)
  {
    assert steps[|steps|..] == [];
    assert done + [] == done;
  }
}
