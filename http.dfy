/** The parts of Spring's HTTP vocabulary the service's responses use. */
module Http {

  datatype HttpStatus = OK | CREATED | BAD_REQUEST | NOT_FOUND | INTERNAL_SERVER_ERROR
  {
    function Code(): (c: int)
      ensures 200 <= c < 600
    {
      match this
      case OK => 200
      case CREATED => 201
      case BAD_REQUEST => 400
      case NOT_FOUND => 404
      case INTERNAL_SERVER_ERROR => 500
    }
  }

  /** `ResponseEntity<T>`: a body and the status the response is sent with. */
  datatype ResponseEntity<+T> = ResponseEntity(body: T, status: HttpStatus)
}
