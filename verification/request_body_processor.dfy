/**
 * RequestResponseBodyMethodProcessor: @RequestBody arguments read through
 * the message converters, required-body and validation checks, and the
 * @ResponseBody return-value side.
 */
module RequestBodyProcessor {
  import opened Common
  import opened MessageConverterResolver

  /** A method parameter as the processor inspects it. */
  datatype BodyParameter = BodyParameter(
    requestBody: Option<bool>,     // the @RequestBody annotation and its `required` attribute
    isOptionalType: bool,          // declared as java.util.Optional
    isNullable: bool,              // carries a @Nullable annotation
    parameterIndex: nat,
    isErrorsType: seq<bool>,       // for each parameter of the method: assignable to Errors
    validationAnnotated: bool)     // @Validated or an annotation whose name starts with "Valid"

  /** The return type as supportsReturnType inspects it. */
  datatype ReturnType = ReturnType(classHasResponseBody: bool, methodHasResponseBody: bool)

  /** A data binder: whether validating the argument reports errors. */
  datatype Binder = Binder(validationReportsErrors: bool)

  /** ModelAndViewContainer, reduced to what the processor changes. */
  datatype MavContainer = MavContainer(requestHandled: bool, bindingResultExposed: bool)

  predicate SupportsParameter(p: BodyParameter) {
    p.requestBody.Some?
  }

  predicate SupportsReturnType(r: ReturnType) {
    r.classHasResponseBody || r.methodHasResponseBody
  }

  /** MethodParameter.isOptional: an Optional type or a @Nullable parameter. */
  predicate IsOptional(p: BodyParameter) {
    p.isOptionalType || p.isNullable
  }

  /** checkRequired: annotated, required, and not optional. */
  predicate CheckRequired(p: BodyParameter) {
    p.requestBody.Some? && p.requestBody.value && !IsOptional(p)
  }

  /** readWithMessageConverters(NativeWebRequest, …): a missing required body is unreadable. */
  function ReadBody(r: Resolver, msg: InputMessage, cs: Collaborators, p: BodyParameter)
    : (res: Result<Option<Obj>>)
    ensures res.Ok? && res.value.None? ==> !CheckRequired(p)
    ensures ReadWithMessageConverters(r, msg, cs).Err? ==> res == ReadWithMessageConverters(r, msg, cs)
    ensures ReadWithMessageConverters(r, msg, cs) == Ok(None) && CheckRequired(p) ==>
              res == Err(HttpMessageNotReadable)
    ensures ReadWithMessageConverters(r, msg, cs).Ok? && !(ReadWithMessageConverters(r, msg, cs) == Ok(None) && CheckRequired(p)) ==>
              res == ReadWithMessageConverters(r, msg, cs)
  {
    var arg :- ReadWithMessageConverters(r, msg, cs);
    if arg.None? && CheckRequired(p) then Err(HttpMessageNotReadable) else Ok(arg)
  }

  /** The argument and what resolving it did to the container. */
  datatype Resolution = Resolution(argument: Option<Obj>, validated: bool, mav: Option<MavContainer>)

  /** resolveArgument. */
  function ResolveArgument(r: Resolver, msg: InputMessage, cs: Collaborators, p: BodyParameter,
                           mav: Option<MavContainer>, binderFactory: Option<Binder>): (res: Result<Resolution>)
  {
    var arg :- ReadBody(r, msg, cs, p);
    if binderFactory.Some? then
      var validated := arg.Some? && p.validationAnnotated;
      var hasErrors := validated && binderFactory.value.validationReportsErrors;
      if arg.Some? && hasErrors && IsBindExceptionRequired(p.parameterIndex, p.isErrorsType) then
        Err(MethodArgumentNotValid)
      else
        var mav' := if mav.Some? then Some(mav.value.(bindingResultExposed := true)) else None;
        Ok(Resolution(AdaptArgumentIfNecessary(arg, p.isOptionalType), validated, mav'))
    else
      Ok(Resolution(AdaptArgumentIfNecessary(arg, p.isOptionalType), false, mav))
  }

  /**
   * resolveArgument's decisions: validation runs only on a non-null
   * argument with a binder; its errors fail the call exactly when no
   * Errors parameter follows; otherwise the binding result is exposed in
   * the container (when there is a binder and a container) and the
   * Optional-adapted argument is returned.
   */
  lemma ResolveArgumentDecisions(r: Resolver, msg: InputMessage, cs: Collaborators, p: BodyParameter,
                                 mav: Option<MavContainer>, binderFactory: Option<Binder>)
    ensures var read := ReadBody(r, msg, cs, p);
            var res := ResolveArgument(r, msg, cs, p, mav, binderFactory);
            && (read.Err? ==> res == Err(read.error))
            && (read.Ok? ==>
                 var failed := binderFactory.Some? && read.value.Some? && p.validationAnnotated
                               && binderFactory.value.validationReportsErrors
                               && IsBindExceptionRequired(p.parameterIndex, p.isErrorsType);
                 && (res.Err? <==> failed)
                 && (res.Err? ==> res.error == MethodArgumentNotValid)
                 && (res.Ok? ==>
                       && res.value.argument == AdaptArgumentIfNecessary(read.value, p.isOptionalType)
                       && (res.value.validated <==> binderFactory.Some? && read.value.Some? && p.validationAnnotated)
                       && (res.value.mav.Some? <==> mav.Some?)
                       && (mav.Some? ==> res.value.mav.value.bindingResultExposed
                                         == (mav.value.bindingResultExposed || binderFactory.Some?))
                       && (mav.Some? ==> res.value.mav.value.requestHandled == mav.value.requestHandled)))
  {
  }

  /** A required, non-optional body that reads as null is always an error. */
  lemma MissingRequiredBody(r: Resolver, msg: InputMessage, cs: Collaborators, p: BodyParameter,
                            mav: Option<MavContainer>, binderFactory: Option<Binder>)
    requires ReadWithMessageConverters(r, msg, cs) == Ok(None)
    ensures ResolveArgument(r, msg, cs, p, mav, binderFactory).Err? <==> CheckRequired(p)
    ensures CheckRequired(p) ==>
              ResolveArgument(r, msg, cs, p, mav, binderFactory) == Err(HttpMessageNotReadable)
  {
  }

  /** handleReturnValue: the request is marked handled before anything is written. */
  function HandleReturnValue(mav: MavContainer): (mav': MavContainer)
    ensures mav'.requestHandled
    ensures mav'.bindingResultExposed == mav.bindingResultExposed
  {
    mav.(requestHandled := true)
  }
}
