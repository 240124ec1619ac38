/** The argument handling of ete.rb: an argument that is a post id is used
    as it is; anything else names a tournament, whose first unanswered
    question the lookup script prints. The lookup's output is a parameter. */
module PostId {
  import opened Wrappers
  import opened RubyString
  import opened RubyNumber

  /** `id.to_i.to_s == id` */
  predicate IsPostId(id: string) {
    ToS(ToI(id)) == id
  }

  datatype Outcome =
    | Run(postId: string)        // research and forecast this post
    | NoQuestions(message: string)

  /** The post to work on, given the argument and what the lookup would print. */
  function Resolve(arg: Option<string>, lookupOutput: string): (r: Result<Outcome>)
    ensures r.Failure? <==> arg.None?
    ensures arg.Some? && IsPostId(arg.value) ==> r == Success(Run(arg.value))
  {
    match arg
    case None => Failure(RuntimeError("tournament id or post id argument is required"))
    case Some(id) =>
      var postId := if IsPostId(id) then Some(id) else AwkFirst(lookupOutput);
      match postId
      case Some(p) =>
        if p == [] then Success(NoQuestions(id + ": No open/unanswered questions available."))
        else Success(Run(p))
      case None => Success(NoQuestions(id + ": No open/unanswered questions available."))
  }

  /** An argument is a post id exactly when it is an integer written as
      Ruby writes integers: `0`, or an optional `-` and digits without a
      leading zero. */
  lemma {:induction false} PostIdIffCanonical(id: string)
    ensures IsPostId(id) <==> IsCanonicalInt(id)
  {
    CanonicalRoundTrip(id);
  }

  /** Every integer as Ruby prints it is taken as a post id. */
  lemma {:induction false} PrintedIntegersAreDirect(n: int)
    ensures IsPostId(ToS(n))
  {
    ToSIsCanonical(n);
    PostIdIffCanonical(ToS(n));
  }

  /** A text whose first character cannot start an integer goes to the lookup. */
  lemma {:induction false} BadStartIsLookedUp(id: string)
    requires |id| > 0 && id[0] != '-' && !IsDigit(id[0])
    ensures !IsPostId(id)
  {
    PostIdIffCanonical(id);
  }

  /** A leading zero, or a minus sign before one, sends the text to the lookup. */
  lemma {:induction false} LeadingZeroIsLookedUp(id: string)
    requires |id| > 1 && (id[0] == '0' || (id[0] == '-' && id[1] == '0'))
    ensures !IsPostId(id)
  {
    PostIdIffCanonical(id);
    if id[0] == '-' {
      assert id[1..][0] == '0';
    }
  }

  /** Trailing text after the digits sends the text to the lookup. */
  lemma {:induction false} TrailingTextIsLookedUp(id: string)
    requires |id| > 0 && !IsDigit(id[|id| - 1])
    ensures !IsPostId(id)
  {
    PostIdIffCanonical(id);
    if |id| >= 2 && id[0] == '-' {
      assert id[1..][|id[1..]| - 1] == id[|id| - 1];
    }
  }

  /** Texts that read as a number but are not written canonically go to the lookup. */
  lemma {:induction false} NearMissesAreLookedUp()
    ensures !IsPostId("0578") && !IsPostId("+5") && !IsPostId(" 5")
    ensures !IsPostId("5a") && !IsPostId("-0") && !IsPostId("minibench")
  {
    LeadingZeroIsLookedUp("0578");
    BadStartIsLookedUp("+5");
    BadStartIsLookedUp(" 5");
    TrailingTextIsLookedUp("5a");
    LeadingZeroIsLookedUp("-0");
    BadStartIsLookedUp("minibench");
  }

  /** On the lookup path the run stops exactly when the lookup printed
      nothing but blanks, and otherwise works on its first word. */
  lemma {:induction false} LookupPath(id: string, lookupOutput: string)
    requires !IsPostId(id)
    ensures Resolve(Some(id), lookupOutput).value.NoQuestions? <==> AllSpace(lookupOutput)
    ensures !AllSpace(lookupOutput) ==> Resolve(Some(id), lookupOutput) == Success(Run(AwkFirst(lookupOutput).value))
  {
  }

  /** A post id argument never stops the run: a post id is never empty. */
  lemma {:induction false} DirectPathRuns(id: string, lookupOutput: string)
    requires IsPostId(id)
    ensures Resolve(Some(id), lookupOutput).value.Run?
  {
    PostIdIffCanonical(id);
  }
}
