/**
 * The in-memory registry of question-answering pipelines behind the
 * FastAPI service (`special_mission_2/app/main.py`).
 *
 * The registry is a list of named entries that `initialize_pipeline`
 * grows in place and that `get_pipeline`, `get_models` and `analyze`
 * only read. The model loader and the inference call are black boxes:
 * they are passed in as function values, the loader returning `None`
 * where the original raises.
 */
module PipelineRegistry {
  import opened Wrappers

  /** One registered pipeline: the model name and its opaque handle. */
  datatype Entry<H> = Entry(name: string, pipeline: H)

  /** The body of an analyze request. */
  datatype Input = Input(modelName: string, question: string, context: string)

  /** The body of a successful analyze response. */
  datatype Output = Output(modelName: string, answer: string)

  /** The failures the endpoints report. */
  datatype Error =
    | ModelLoadFailure   // the loader raised: 404 "please enter a correct model"
    | PipelineNotActive  // analyze named an unregistered model: 404
    | AnswerMissing      // the inference result has no 'answer' key: KeyError, 500

  /**
   * The HTTP status each failure is reported with: the two lookup failures
   * are client errors (404), the uncaught `KeyError` a server error (500).
   */
  function StatusCode(e: Error): (code: int)
    ensures code == 404 <==> (e == ModelLoadFailure || e == PipelineNotActive)
    ensures code == 500 <==> e == AnswerMissing
  {
    match e
    case ModelLoadFailure => 404
    case PipelineNotActive => 404
    case AnswerMissing => 500
  }

  /** The names of `es`, in order. */
  function NamesOf<H>(es: seq<Entry<H>>): (r: seq<string>)
    ensures |r| == |es|
    ensures forall i :: 0 <= i < |es| ==> r[i] == es[i].name
  {
    if es == [] then [] else [es[0].name] + NamesOf(es[1..])
  }

  /** No two entries of `es` share a name. */
  predicate UniqueNames<H>(es: seq<Entry<H>>)
  {
    forall i, j :: 0 <= i < j < |es| ==> es[i].name != es[j].name
  }

  /** How many entries of `es` are called `n`. */
  function CountName<H>(es: seq<Entry<H>>, n: string): nat
  {
    if es == [] then 0
    else (if es[0].name == n then 1 else 0) + CountName(es[1..], n)
  }

  /**
   * The lookup `get_pipeline` performs: the first entry called `n`,
   * or `None` exactly when no entry has that name.
   */
  function Lookup<H>(es: seq<Entry<H>>, n: string): (r: Option<Entry<H>>)
    ensures r.None? <==> n !in NamesOf(es)
    ensures r.Some? ==> r.value in es && r.value.name == n
  {
    if es == [] then None
    else if es[0].name == n then Some(es[0])
    else
      assert NamesOf(es) == [es[0].name] + NamesOf(es[1..]);
      Lookup(es[1..], n)
  }

  /** `Lookup` returns the entry at the first index carrying the name. */
  lemma {:induction false} LookupIsFirst<H>(es: seq<Entry<H>>, n: string, i: nat)
    requires i < |es| && es[i].name == n
    requires forall j :: 0 <= j < i ==> es[j].name != n
    ensures Lookup(es, n) == Some(es[i])
  {
    if i > 0 {
      LookupIsFirst(es[1..], n, i - 1);
    }
  }

  /** Appending an entry never changes what an existing name finds. */
  lemma {:induction false} LookupAppend<H>(es: seq<Entry<H>>, e: Entry<H>, n: string)
    ensures Lookup(es + [e], n) ==
              if n in NamesOf(es) then Lookup(es, n)
              else if e.name == n then Some(e)
              else None
  {
    if es == [] {
      assert es + [e] == [e];
    } else {
      assert (es + [e])[1..] == es[1..] + [e];
      assert NamesOf(es) == [es[0].name] + NamesOf(es[1..]);
      if es[0].name != n {
        LookupAppend(es[1..], e, n);
      }
    }
  }

  /** Appending an entry appends its name. */
  lemma NamesOfAppend<H>(es: seq<Entry<H>>, e: Entry<H>)
    ensures NamesOf(es + [e]) == NamesOf(es) + [e.name]
  {
  }

  /** Appending an entry under a fresh name keeps the names distinct. */
  lemma {:induction false} UniqueNamesAppend<H>(es: seq<Entry<H>>, e: Entry<H>)
    requires UniqueNames(es)
    ensures UniqueNames(es + [e]) <==> e.name !in NamesOf(es)
  {
    var es' := es + [e];
    if e.name in NamesOf(es) {
      var k :| 0 <= k < |es| && NamesOf(es)[k] == e.name;
      assert es'[k].name == es'[|es|].name;
    } else {
      forall i, j | 0 <= i < j < |es'| ensures es'[i].name != es'[j].name {
        if j == |es| {
          assert NamesOf(es)[i] == es[i].name;
        }
      }
    }
  }

  /** Under unique names a registered name occurs exactly once. */
  lemma {:induction false} UniqueCount<H>(es: seq<Entry<H>>, n: string)
    requires UniqueNames(es)
    ensures CountName(es, n) == if n in NamesOf(es) then 1 else 0
  {
    if es != [] {
      var tail := es[1..];
      assert UniqueNames(tail) by {
        forall i, j | 0 <= i < j < |tail| ensures tail[i].name != tail[j].name {
          assert tail[i] == es[i + 1] && tail[j] == es[j + 1];
        }
      }
      UniqueCount(tail, n);
      assert NamesOf(es) == [es[0].name] + NamesOf(tail);
      if es[0].name == n {
        assert n !in NamesOf(tail) by {
          forall k | 0 <= k < |tail| ensures NamesOf(tail)[k] != n {
            assert tail[k] == es[k + 1];
          }
        }
      }
    }
  }

  /**
   * The module-level `pipelines` list with the helper `get_pipeline` and
   * the three endpoints that use it.
   * `H` is the opaque inference handle the loader produces.
   */
  class Registry<H> {
    var entries: seq<Entry<H>>

    /** The registry's invariant: at most one entry per model name. */
    ghost predicate Valid()
      reads this
    {
      UniqueNames(entries)
    }

    /** The service starts with no pipelines. */
    constructor ()
      ensures Valid() && entries == []
    {
      entries := [];
    }

    /** `get_models`: the registered names in insertion order. */
    function GetModels(): (r: seq<string>)
      reads this
      ensures |r| == |entries|
      ensures forall i :: 0 <= i < |entries| ==> r[i] == entries[i].name
      ensures entries == [] ==> r == []
    {
      if entries == [] then [] else NamesOf(entries)
    }

    /** `get_pipeline`: a linear scan returning the first entry with the name. */
    method GetPipeline(modelName: string) returns (r: Option<Entry<H>>)
      ensures r == Lookup(entries, modelName)
      ensures r.None? <==> modelName !in GetModels()
    {
      for i := 0 to |entries|
        invariant Lookup(entries, modelName) == Lookup(entries[i..], modelName)
      {
        if entries[i].name == modelName {
          return Some(entries[i]);
        }
        assert entries[i..][1..] == entries[i + 1..];
      }
      return None;
    }

    /**
     * `initialize_pipeline`: answers at once for a registered name; otherwise
     * loads the model and appends it, or reports a load failure and changes
     * nothing.
     */
    method InitializePipeline(modelName: string, load: string -> Option<H>)
      returns (r: Result<string, Error>)
      requires Valid()
      modifies this
      ensures Valid()
      ensures modelName in old(GetModels()) ==>
                r == Ok(modelName) && entries == old(entries)
      ensures modelName !in old(GetModels()) && load(modelName).Some? ==>
                r == Ok(modelName) &&
                entries == old(entries) + [Entry(modelName, load(modelName).value)]
      ensures modelName !in old(GetModels()) && load(modelName).None? ==>
                r == Err(ModelLoadFailure) && entries == old(entries)
      ensures r.Ok? ==> CountName(entries, modelName) == 1
      ensures r.Err? ==> StatusCode(r.error) == 404
    {
      var pipelineNames := set i | 0 <= i < |entries| :: entries[i].name;
      assert modelName in pipelineNames <==> modelName in GetModels();
      if modelName in pipelineNames {
        r := Ok(modelName);
      } else {
        var loaded := load(modelName);
        match loaded
        case None =>
          return Err(ModelLoadFailure);
        case Some(h) =>
          var entry := Entry(modelName, h);
          UniqueNamesAppend(entries, entry);
          NamesOfAppend(entries, entry);
          entries := entries + [entry];
          r := Ok(entry.name);
      }
      UniqueCount(entries, modelName);
    }

    /**
     * `analyze`: finds the named pipeline or reports it inactive, runs the
     * inference on the question and context, and answers with its 'answer'.
     */
    method Analyze(input: Input, infer: (H, string, string) -> map<string, string>)
      returns (r: Result<Output, Error>)
      ensures input.modelName !in GetModels() ==> r == Err(PipelineNotActive)
      ensures match Lookup(entries, input.modelName)
              case None => r == Err(PipelineNotActive)
              case Some(e) =>
                var result := infer(e.pipeline, input.question, input.context);
                r == if "answer" in result
                     then Ok(Output(input.modelName, result["answer"]))
                     else Err(AnswerMissing)
      ensures r.Ok? ==> r.value.modelName == input.modelName
      ensures r.Err? ==>
                StatusCode(r.error) == if input.modelName in GetModels() then 500 else 404
    {
      var curPipeline := GetPipeline(input.modelName);
      if curPipeline.None? {
        return Err(PipelineNotActive);
      }
      var result := infer(curPipeline.value.pipeline, input.question, input.context);
      if "answer" !in result {
        return Err(AnswerMissing);
      }
      var answer := result["answer"];
      r := Ok(Output(input.modelName, answer));
    }
  }

  /**
   * A client: registering the same loadable model twice answers with its
   * name both times and leaves exactly one entry.
   */
  method RegisterTwice<H>(load: string -> Option<H>, modelName: string)
    returns (first: Result<string, Error>, second: Result<string, Error>, names: seq<string>)
    requires load(modelName).Some?
    ensures first == second == Ok(modelName)
    ensures names == [modelName]
  {
    var registry := new Registry<H>();
    first := registry.InitializePipeline(modelName, load);
    second := registry.InitializePipeline(modelName, load);
    names := registry.GetModels();
  }

  /**
   * A client: registering two loadable models lists them in registration
   * order, and analyzing the first one reaches its pipeline.
   */
  method RegisterInOrder<H>(load: string -> Option<H>,
                            infer: (H, string, string) -> map<string, string>,
                            a: string, b: string, question: string, context: string)
    returns (names: seq<string>, answer: Result<Output, Error>)
    requires a != b && load(a).Some? && load(b).Some?
    requires "answer" in infer(load(a).value, question, context)
    ensures names == [a, b]
    ensures answer == Ok(Output(a, infer(load(a).value, question, context)["answer"]))
  {
    var registry := new Registry<H>();
    var _ := registry.InitializePipeline(a, load);
    var _ := registry.InitializePipeline(b, load);
    names := registry.GetModels();
    LookupIsFirst(registry.entries, a, 0);
    answer := registry.Analyze(Input(a, question, context), infer);
  }
}
