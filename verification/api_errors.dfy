/** The errors the TypeScript handlers answer with (views/error_views.ts). */
module ApiErrors {

  /** 400 with a message, 404, or 500. */
  datatype ApiError = BadRequest(message: string) | NotFound | InternalServerError
}
