/** The topic form: the submit guard on the trimmed input and the disabled states of its controls. */
module TopicForm {
  import opened Wrappers
  import opened Text

  /**
   * Submitting the form: the trimmed topic is handed on when it is not
   * empty, and nothing is handed on otherwise.
   */
  function HandleSubmit(topic: string): (r: Option<string>)
    ensures r == None <==> IsBlank(topic)
    ensures r.Some? ==> r.value == Trim(topic)
    ensures r.Some? ==> r.value != [] && !IsSpace(r.value[0]) && !IsSpace(r.value[|r.value| - 1])
  {
    TrimEmptyIffBlank(topic);
    if Trim(topic) != [] then Some(Trim(topic)) else None
  }

  /** Whether the text input and the submit button are disabled. */
  datatype Controls = Controls(inputDisabled: bool, submitDisabled: bool)

  /** The controls' disabled states for the current input and loading flag. */
  function FormControls(topic: string, isLoading: bool): (c: Controls)
    ensures c.inputDisabled <==> isLoading
    ensures c.submitDisabled <==> isLoading || IsBlank(topic)
    ensures !c.submitDisabled ==> HandleSubmit(topic).Some?
  {
    TrimEmptyIffBlank(topic);
    Controls(isLoading, isLoading || Trim(topic) == [])
  }
}
