/** The `<response>` envelope the controller fills in. */
module ResponseDtos {
  import opened Wrappers
  import opened ExtraDto

  /** The response as a value: its result code (null until set) and its extras in insertion order. */
  datatype ResponseView = ResponseView(resultCode: Option<int>, extras: seq<Extra>)

  /** The mutable response. Its getters are the field reads `resultCode` and `extras`. */
  class ResponseDto {
    var resultCode: Option<int>
    var extras: seq<Extra>

    function View(): ResponseView
      reads this
    {
      ResponseView(resultCode, extras)
    }

    /** ResponseDto(): no result code yet and an empty list of extras. */
    constructor ()
      ensures View() == ResponseView(None, [])
    {
      resultCode, extras := None, [];
    }

    /** ResponseDto(resultCode): the given code and an empty list of extras. */
    constructor WithCode(resultCode: Option<int>)
      ensures View() == ResponseView(resultCode, [])
    {
      this.resultCode, extras := resultCode, [];
    }

    method SetResultCode(resultCode: Option<int>)
      modifies this
      ensures View() == old(View()).(resultCode := resultCode)
    {
      this.resultCode := resultCode;
    }

    method SetExtras(extras: seq<Extra>)
      modifies this
      ensures View() == old(View()).(extras := extras)
    {
      this.extras := extras;
    }

    /** addExtra appends one element at the end, keeps every earlier one (even one of the same name)
        and leaves the result code alone. */
    method AddExtra(name: string, value: Option<string>)
      modifies this
      ensures |extras| == |old(extras)| + 1
      ensures extras[..|old(extras)|] == old(extras) && extras[|old(extras)|] == Extra(name, value)
      ensures resultCode == old(resultCode)
    {
      extras := extras + [Extra(name, value)];
    }
  }
}
