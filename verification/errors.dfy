/** The exceptions that can leave the modelled operations: one constructor
    per exception class (and, for the service's own exceptions, per message). */
module Errors {
  import opened Wrappers

  datatype Fault =
      /** RuntimeException raised by the duplicate-email check. */
    | DuplicateEmail
      /** IllegalArgumentException raised by the email-format check. */
    | InvalidEmailFormat
      /** IllegalArgumentException raised by the password-format check. */
    | InvalidPasswordFormat
      /** RuntimeException raised when no user has the requested id. */
    | UserNotFound
      /** AuthException raised by login for any authentication failure. */
    | InvalidCredentials
      /** RuntimeException raised by a partial update with an unknown key. */
    | UnknownField
      /** UsernameNotFoundException raised by the user-details lookup. */
    | UsernameNotFound(email: string)
      /** Any io.jsonwebtoken.JwtException thrown while parsing a token. */
    | InvalidToken
      /** IllegalArgumentException of the token parser on an empty or blank token
          (not a JwtException). */
    | BlankToken
      /** NullPointerException: an absent claim, a null list, a null Boolean. */
    | NullValue
      /** ClassCastException: a partial-update value of the wrong JSON type. */
    | WrongType
      /** IllegalArgumentException of Spring's User constructor (null or empty username). */
    | EmptyUsername
      /** IllegalArgumentException of the password encoder on a null password. */
    | NullPassword
      /** Spring Data's IncorrectResultSizeDataAccessException: two users share an email. */
    | NonUniqueResult

  /** The text the program words itself for the exceptions it raises;
      `None` for exceptions raised by a library or the runtime, whose
      wording this model does not fix. */
  function Message(f: Fault): Option<string> {
    match f
    case DuplicateEmail => Some("El correo ya está registrado")
    case InvalidEmailFormat => Some("Formato de correo electrónico inválido")
    case InvalidPasswordFormat => Some("Formato de contraseña inválido")
    case UserNotFound => Some("Usuario no encontrado")
    case InvalidCredentials => Some("Credenciales inválidas")
    case UnknownField => Some("Información desconocida")
    case UsernameNotFound(email) => Some("Usuario no encontrado con este email: " + email)
    case _ => None
  }

  /** The lookup's not-found message names the email, so two such messages
      are equal exactly when they name the same email. */
  lemma {:induction false} NotFoundMessageNamesEmail(a: string, b: string)
    ensures Message(UsernameNotFound(a)) == Message(UsernameNotFound(b)) <==> a == b
  {
    var prefix := "Usuario no encontrado con este email: ";
    if Message(UsernameNotFound(a)) == Message(UsernameNotFound(b)) {
      assert a == (prefix + a)[|prefix|..];
      assert b == (prefix + b)[|prefix|..];
    }
  }
}
