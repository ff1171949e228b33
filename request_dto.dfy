/** The parsed `<request>` envelope. */
module RequestDtos {
  import opened Wrappers
  import opened ExtraDto

  /** The request as the XML reader leaves it: a request type and a list of extras, either of which
      is null when its element is missing. The getters are the field reads `requestType` and `extras`. */
  class RequestDto {
    var requestType: Option<string>
    var extras: Option<seq<Extra>>

    /** The implicit constructor the XML reader uses: both fields null. */
    constructor ()
      ensures requestType == None && extras == None
    {
      requestType, extras := None, None;
    }

    method SetRequestType(requestType: Option<string>)
      modifies this
      ensures this.requestType == requestType && extras == old(extras)
    {
      this.requestType := requestType;
    }

    method SetExtras(extras: Option<seq<Extra>>)
      modifies this
      ensures this.extras == extras && requestType == old(requestType)
    {
      this.extras := extras;
    }

    /** getExtraValue: null when there are no extras or none of them has this name; otherwise the value
        of the lowest-index extra with this name, which throws when that value is null. Being a function
        of the fields, it changes neither of them. */
    function GetExtraValue(name: string): (r: Result<Option<string>>)
      reads this
      ensures extras.None? ==> r == Success(None)
      ensures r == Success(None) <==> extras.None? || NoneNamed(extras.value, name)
      ensures extras.Some? ==>
        forall i :: IsFirstNamed(extras.value, name, i) ==> r == ValueOrThrow(extras.value[i])
    {
      if extras.None? then Success(None)
      else
        FirstValueSpec(extras.value, name);
        FirstValue(extras.value, name)
    }
  }

  /** A duplicated name: the first occurrence wins, whatever precedes it under other names and whatever
      follows it. */
  lemma FirstDuplicateWins(r: RequestDto, name: string, pre: seq<Extra>, first: string, mid: seq<Extra>,
                           later: string, rest: seq<Extra>)
    requires NoneNamed(pre, name)
    requires r.extras == Some(pre + [Extra(name, Some(first))] + mid + [Extra(name, Some(later))] + rest)
    ensures r.GetExtraValue(name) == Success(Some(first))
  {
    var xs := r.extras.value;
    assert xs[|pre|] == Extra(name, Some(first));
    assert forall j :: 0 <= j < |pre| ==> xs[j] == pre[j];
    assert IsFirstNamed(xs, name, |pre|);
  }
}
