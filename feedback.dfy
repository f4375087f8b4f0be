/** The feedback dialog: its form state, the validation and payload of a submission, and
    what a finished submission resets. The POST itself is abstracted: whether it was
    delivered with an OK status is an input. */
module Feedback {
  import opened Common

  /** The `"<k>/5"` field for a rating `k` > 0, or "N/A" without a rating. */
  function RatingField(rating: int): (r: string)
    ensures r != ""
  {
    if rating > 0 then DecimalString(rating) + "/5" else "N/A"
  }

  /** The ratings the stars can produce map onto six distinct fields, one per rating:
      no rating is "N/A", and a star rating is "k/5" for its own k. */
  lemma RatingFieldValues(rating: int)
    requires 0 <= rating <= 5
    ensures RatingField(rating) in {"N/A", "1/5", "2/5", "3/5", "4/5", "5/5"}
    ensures rating == 0 <==> RatingField(rating) == "N/A"
    ensures rating > 0 ==> RatingField(rating)[0] == Digit(rating)
  {
    if rating > 0 {
      var f := RatingField(rating);
      assert f == [Digit(rating)] + "/5";
      if rating == 1 { assert f == "1/5"; }
      else if rating == 2 { assert f == "2/5"; }
      else if rating == 3 { assert f == "3/5"; }
      else if rating == 4 { assert f == "4/5"; }
      else { assert f == "5/5"; }
    }
  }

  /** Different ratings give different fields, so the field names the rating. */
  lemma {:induction false} RatingFieldInjective(a: int, b: int)
    requires 0 <= a <= 5 && 0 <= b <= 5
    ensures RatingField(a) == RatingField(b) <==> a == b
  {
    RatingFieldValues(a);
    RatingFieldValues(b);
    if RatingField(a) == RatingField(b) && a > 0 {
      assert Digit(a) == Digit(b);
    }
  }

  /** The JSON body posted to `/feedback`. */
  datatype Payload = Payload(username: string, email: string, message: string, rating: string)

  /** The body built from the signed-in user's name and the form fields. */
  function BuildPayload(username: Option<string>, email: string, message: string, rating: int): (p: Payload)
    ensures p.message == message
    ensures p.username != "" && p.email != "" && p.rating != ""
    ensures Truthy(username) ==> p.username == username.value
    ensures !Truthy(username) ==> p.username == "Anonymous"
    ensures email != "" ==> p.email == email
    ensures email == "" ==> p.email == "Not provided"
    ensures p.rating == RatingField(rating)
  {
    Payload(OptOrElse(username, "Anonymous"), OrElse(email, "Not provided"), message, RatingField(rating))
  }

  /** A toast notification. */
  datatype Toast = Toast(title: string, description: string, destructive: bool)

  const MessageRequired: Toast :=
    Toast("Message required", "Please enter your feedback message.", true)
  const FeedbackSent: Toast :=
    Toast("Feedback sent!", "Thank you for helping us improve Vasha AI.", false)
  const SubmitFailed: Toast :=
    Toast("Error", "Something went wrong. Please try again later.", true)

  /** What pressing Submit does: shows a toast and stops, or sends a payload. */
  datatype SubmitStep = Rejected(toast: Toast) | Sent(payload: Payload)

  class FeedbackForm {
    var open: bool
    var isSubmitting: bool
    var rating: int
    var message: string
    var email: string

    /** The rating is 0 (none) or a star count 1..5. */
    ghost predicate Valid()
      reads this
    {
      0 <= rating <= 5
    }

    constructor()
      ensures Valid()
      ensures !open && !isSubmitting && rating == 0 && message == "" && email == ""
    {
      open := false;
      isSubmitting := false;
      rating := 0;
      message := "";
      email := "";
    }

    /** The dialog's `onOpenChange`. */
    method SetOpen(o: bool)
      requires Valid()
      modifies this
      ensures Valid()
      ensures open == o
      ensures isSubmitting == old(isSubmitting) && rating == old(rating)
      ensures message == old(message) && email == old(email)
    {
      open := o;
    }

    /** Typing in the message box. */
    method SetMessage(text: string)
      requires Valid() && open
      modifies this
      ensures Valid()
      ensures message == text
      ensures open == old(open) && isSubmitting == old(isSubmitting) && rating == old(rating) && email == old(email)
    {
      message := text;
    }

    /** Typing in the e-mail box. */
    method SetEmail(text: string)
      requires Valid() && open
      modifies this
      ensures Valid()
      ensures email == text
      ensures open == old(open) && isSubmitting == old(isSubmitting) && rating == old(rating) && message == old(message)
    {
      email := text;
    }

    /** Clicking one of the five stars. */
    method SetRating(star: int)
      requires Valid() && open && 1 <= star <= 5
      modifies this
      ensures Valid()
      ensures rating == star
      ensures open == old(open) && isSubmitting == old(isSubmitting) && message == old(message) && email == old(email)
    {
      rating := star;
    }

    /** `handleSubmit`, up to the request: an empty message is refused with a toast and
        nothing else changes; otherwise the payload is sent and the form is submitting. */
    method SubmitStart(username: Option<string>) returns (step: SubmitStep)
      requires Valid() && open && !isSubmitting
      modifies this
      ensures Valid()
      ensures old(message) == "" <==> step == Rejected(MessageRequired)
      ensures step.Rejected? ==> !isSubmitting
      ensures old(message) != "" ==>
                step == Sent(BuildPayload(username, old(email), old(message), old(rating))) && isSubmitting
      ensures step.Sent? ==> isSubmitting && step.payload == BuildPayload(username, old(email), old(message), old(rating))
      ensures open == old(open) && rating == old(rating) && message == old(message) && email == old(email)
    {
      if message == "" {
        return Rejected(MessageRequired);
      }
      isSubmitting := true;
      step := Sent(BuildPayload(username, email, message, rating));
    }

    /** `handleSubmit`, after the request: on delivery the dialog closes and the message,
        rating and e-mail are cleared; on failure they are kept. Submitting ends either way. */
    method SubmitFinish(delivered: bool) returns (toast: Toast)
      requires Valid() && isSubmitting
      modifies this
      ensures Valid()
      ensures !isSubmitting
      ensures delivered ==> toast == FeedbackSent && !open && message == "" && rating == 0 && email == ""
      ensures !delivered ==> toast == SubmitFailed && open == old(open) && message == old(message) &&
                             rating == old(rating) && email == old(email)
    {
      if delivered {
        toast := FeedbackSent;
        open := false;
        message := "";
        rating := 0;
        email := "";
      } else {
        toast := SubmitFailed;
      }
      isSubmitting := false;
    }
  }
}
