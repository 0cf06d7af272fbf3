/**
 * The processor that forbids creating an email attachment through its own API
 * resource: an attachment may only be created together with its email, that is
 * in a sub-request and never as the master request.
 */
module EmailAttachmentGate {

  /** The part of the API context the processor reads. */
  datatype ApiContext = ApiContext(isMasterRequest: bool)

  /** `process` returns normally, or throws an AccessDeniedException with a message. */
  datatype ProcessOutcome = Proceed | AccessDenied(message: string)

  const DeniedMessage: string :=
    "Use API resource to create an email. An email attachment can be created only together with an email."

  /** `process`: a master request is denied; anything else passes. The context is only read. */
  function Process(context: ApiContext): (r: ProcessOutcome)
    ensures r.AccessDenied? <==> context.isMasterRequest
    ensures r.AccessDenied? ==> r.message == DeniedMessage
  {
    if context.isMasterRequest then AccessDenied(DeniedMessage) else Proceed
  }
}
