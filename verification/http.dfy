/** The request methods the handlers distinguish. */
module Http {

  /** `OtherMethod` stands for every method name other than OPTIONS, GET
      and POST; its `name` is never one of those three. */
  datatype Method = Options | Get | Post | OtherMethod(name: string)

  const MethodNotAllowed := "Method not allowed"
  const ServerError := "Server error"
}
