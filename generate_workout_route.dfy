/** The modelled part of app/api/generateWorkout/route.ts: the clean-up of the generated
    text and the mapping of the request's outcome to a response. */
module GenerateWorkoutRoute {
  import opened Wrappers
  import opened Text

  const Unwanted := "per leg"

  /** `text.replace(/per leg/g, "")`: one left-to-right pass deleting each match. */
  function CleanGeneratedText(text: string): (r: string)
    ensures |r| <= |text|
    decreases |text|
  {
    if |text| < |Unwanted| then text
    else if IsPrefix(Unwanted, text) then CleanGeneratedText(text[|Unwanted|..])
    else [text[0]] + CleanGeneratedText(text[1..])
  }

  /** The number of matches that pass deletes. */
  function Removed(text: string): nat
    decreases |text|
  {
    if |text| < |Unwanted| then 0
    else if IsPrefix(Unwanted, text) then 1 + Removed(text[|Unwanted|..])
    else Removed(text[1..])
  }

  /** Each deleted match takes exactly seven characters away. */
  lemma {:induction false} CleanLength(text: string)
    ensures |CleanGeneratedText(text)| == |text| - |Unwanted| * Removed(text)
    decreases |text|
  {
    if |text| < |Unwanted| {
    } else if IsPrefix(Unwanted, text) {
      CleanLength(text[|Unwanted|..]);
    } else {
      CleanLength(text[1..]);
    }
  }

  /** An occurrence in a suffix is an occurrence in the whole text. */
  lemma ContainsSuffix(text: string, n: nat)
    requires n <= |text| && Contains(text[n..], Unwanted)
    ensures Contains(text, Unwanted)
  {
    var i: nat :| i <= |text[n..]| && OccursAt(text[n..], Unwanted, i);
    assert text[n + i..n + i + |Unwanted|] == text[n..][i..i + |Unwanted|];
    assert OccursAt(text, Unwanted, n + i);
  }

  /** Something is deleted exactly when the text contains "per leg". */
  lemma {:induction false} RemovedIffContains(text: string)
    ensures Removed(text) > 0 <==> Contains(text, Unwanted)
    decreases |text|
  {
    if |text| < |Unwanted| {
      assert forall i: nat | i <= |text| :: !OccursAt(text, Unwanted, i);
    } else if IsPrefix(Unwanted, text) {
      assert OccursAt(text, Unwanted, 0);
    } else {
      RemovedIffContains(text[1..]);
      if Contains(text[1..], Unwanted) {
        ContainsSuffix(text, 1);
      }
      if Contains(text, Unwanted) {
        var i: nat :| i <= |text| && OccursAt(text, Unwanted, i);
        assert i != 0;
        assert text[1..][i - 1..i - 1 + |Unwanted|] == text[i..i + |Unwanted|];
        assert OccursAt(text[1..], Unwanted, i - 1);
      }
    }
  }

  /** Text without "per leg" comes back unchanged. */
  lemma {:induction false} CleanWithoutMatch(text: string)
    requires !Contains(text, Unwanted)
    ensures CleanGeneratedText(text) == text
    decreases |text|
  {
    if |text| >= |Unwanted| {
      if IsPrefix(Unwanted, text) {
        assert OccursAt(text, Unwanted, 0);
      } else {
        if Contains(text[1..], Unwanted) {
          ContainsSuffix(text, 1);
        }
        CleanWithoutMatch(text[1..]);
        assert text == [text[0]] + text[1..];
      }
    }
  }

  /** The pass does not look again at what a deletion joins together. */
  lemma SinglePass()
    ensures CleanGeneratedText("perper leg leg") == "per leg"
    ensures Contains(CleanGeneratedText("perper leg leg"), Unwanted)
  {
    ContainsItself(Unwanted);
    var t := "perper leg leg";
    assert t[3] != Unwanted[3] && !IsPrefix(Unwanted, t);
    assert t[1..][0] != Unwanted[0] && !IsPrefix(Unwanted, t[1..]);
    assert t[2..][0] != Unwanted[0] && !IsPrefix(Unwanted, t[2..]);
    assert t[2..][1..] == t[3..] && t[1..][1..] == t[2..];
    assert IsPrefix(Unwanted, t[3..]);
    assert t[3..][7..] == " leg";
    assert CleanGeneratedText(" leg") == " leg";
  }

  /** The response body: the parsed exercises, or the fixed error message. */
  datatype Body<T> = Exercises(exercises: T) | Failure(error: string)

  datatype Response<T> = Response(status: int, body: Body<T>)

  const GenerateFailed := "Failed to generate workout."

  /** `POST`: reads the request body, checks the API key, asks the model for text, cleans
      it and parses it as JSON. Reading the body, the generation and the parsing are
      outcomes given as parameters; any failure among them lands in the one `catch`. */
  function Post<T>(request: Result<()>, apiKey: Option<string>, generated: Result<string>, parse: string -> Option<T>)
    : (r: Response<T>)
    ensures r.body.Failure? <==> r.status == 500
    ensures r.body.Failure? ==> r.body.error == GenerateFailed
    ensures r.body.Exercises? <==>
      request.Ok? && apiKey.Some? && apiKey.value != "" && generated.Ok? && parse(CleanGeneratedText(generated.value)).Some?
    ensures r.body.Exercises? ==>
      r.status == 200 && Some(r.body.exercises) == parse(CleanGeneratedText(generated.value))
  {
    if request.Err? || apiKey.None? || apiKey.value == "" || generated.Err? then
      Response(500, Failure(GenerateFailed))
    else
      match parse(CleanGeneratedText(generated.value))
      case None => Response(500, Failure(GenerateFailed))
      case Some(exercises) => Response(200, Exercises(exercises))
  }
}
