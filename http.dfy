/** The JSON responses the controllers write: `{ success: false, message }` or
    `{ success: true, data }`, each with its status code. */
module Http {
  datatype Response<D> = Fail(status: int, message: string) | Ok(status: int, data: D)
}
