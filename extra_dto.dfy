/** The name/value pairs carried by requests and responses. */
module ExtraDto {
  import opened Wrappers

  /** One `<extra name="...">value</extra>` element; its text may be absent (null). */
  datatype Extra = Extra(name: string, value: Option<string>)

  /** Index i holds the first extra named `name`. */
  predicate IsFirstNamed(extras: seq<Extra>, name: string, i: int) {
    0 <= i < |extras| && extras[i].name == name
    && forall j :: 0 <= j < i ==> extras[j].name != name
  }

  predicate NoneNamed(extras: seq<Extra>, name: string) {
    forall i :: 0 <= i < |extras| ==> extras[i].name != name
  }

  /** What `.map(ExtraDto::getValue).findFirst()` yields for an extra that passed the filter: its value,
      or a NullPointerException when that value is null, because findFirst refuses a null element. */
  function ValueOrThrow(e: Extra): Result<Option<string>> {
    if e.value.Some? then Success(e.value) else Failure(NullPointerException)
  }

  /** The stream pipeline filter(name matches) / map(getValue) / findFirst / orElse(null). */
  function FirstValue(extras: seq<Extra>, name: string): (r: Result<Option<string>>)
    ensures r.Success? && r.value.Some? ==> Extra(name, r.value) in extras
    ensures r.Failure? ==> r.error == NullPointerException && Extra(name, None) in extras
  {
    if |extras| == 0 then Success(None)
    else if extras[0].name == name then ValueOrThrow(extras[0])
    else FirstValue(extras[1..], name)
  }

  /** The lookup answers with the first extra of that name, and answers null exactly when there is none. */
  lemma {:induction false} FirstValueSpec(extras: seq<Extra>, name: string)
    ensures FirstValue(extras, name) == Success(None) <==> NoneNamed(extras, name)
    ensures forall i :: IsFirstNamed(extras, name, i) ==> FirstValue(extras, name) == ValueOrThrow(extras[i])
  {
    if |extras| > 0 && extras[0].name != name {
      var tail := extras[1..];
      FirstValueSpec(tail, name);
      forall i | IsFirstNamed(extras, name, i)
        ensures FirstValue(extras, name) == ValueOrThrow(extras[i])
      {
        assert IsFirstNamed(tail, name, i - 1);
      }
      if NoneNamed(tail, name) {
        assert NoneNamed(extras, name) by {
          forall i | 0 <= i < |extras| ensures extras[i].name != name {
            if i > 0 { assert extras[i] == tail[i - 1]; }
          }
        }
      } else {
        assert !NoneNamed(extras, name) by {
          var j :| 0 <= j < |tail| && tail[j].name == name;
          assert extras[j + 1] == tail[j];
        }
      }
    }
  }
}
