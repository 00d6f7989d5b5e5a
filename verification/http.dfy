/** Request fields and JSON responses shared by the handlers of src/app.js. */
module Http {

  /** A request field: `None` when the body has no such field (undefined or null). */
  datatype Option<+T> = None | Some(value: T)

  /** The status code and the `message` of the JSON body a handler answers with. */
  datatype Response = Response(status: int, message: string)

  /** JavaScript truthiness of a string field: present and not the empty string. */
  predicate Present(field: Option<string>) {
    field.Some? && field.value != ""
  }

  const MissingFields := Response(400, "Email and password are required")
  const Registered := Response(201, "Registration successful")
  const LoginOk := Response(200, "Login successful")
  const AuthFailed := Response(401, "Authentication failed")
  const ServerError := Response(500, "Internal server error")
  const NoFile := Response(400, "No file uploaded")
  const Uploaded := Response(200, "File uploaded to S3 bucket successfully")
}
