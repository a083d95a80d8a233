/** What the server's code throws, as values. */
module Errors {

  datatype Failure =
    /** graphql's `GraphQLError` carrying `extensions.code`. */
    | GraphQLError(message: string, code: string)
    /** A plain JavaScript `Error`. */
    | Error(message: string)
    /** `User.create` rejected a new document: a Mongoose ValidationError
        from the `User` schema's validators, or a MongoDB duplicate-key
        error (E11000) from a unique index (models/User.js is not part of
        this model, so the two are not told apart). */
    | CreateRefused
}
