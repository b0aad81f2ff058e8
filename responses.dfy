/**
 * The error responses the views produce. Django REST framework turns each
 * exception into a 4xx (or, for an uncaught database error, a 500) response.
 */
module Responses {

  /** The request fields a ValidationError can be attached to. */
  datatype Field =
    | UsernameField | EmailField | CodeField
    | TextField | ScoreField
    | NameField | SlugField | YearField | DescriptionField | CategoryField | GenreField
    | FirstNameField | LastNameField | BioField

  datatype Error =
    | Invalid(fields: set<Field>)        // field-tagged ValidationError, HTTP 400
    | NonFieldInvalid(message: string)   // ValidationError raised by a serializer's validate(), HTTP 400
    | NotFound                           // Http404 from get_object_or_404, HTTP 404
    | BadRequest(detail: string)         // a 400 response the view builds itself
    | NotAuthenticated                   // a permission refused an anonymous requester, HTTP 401
    | PermissionDenied(message: string)  // a permission refused an authenticated requester, HTTP 403
    | IntegrityError                     // a database constraint refused a write, HTTP 500
    | ServerError                        // any other exception the view lets escape, HTTP 500
}
