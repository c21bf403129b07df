/** The records the components exchange with the catalog gateway and the
    authentication service. */
module Entities {

  datatype Option<T> = None | Some(value: T)

  /** A catalog record as the gateway returns it. `price` is in cents. */
  datatype Product = Product(id: int, title: string, price: int, category: string, image: string)

  /** The signed-in user as read from the session. */
  datatype User = User(
    id: int,
    username: string,
    email: string,
    password: string,
    role: string,
    city: string,
    country: string,
    domain: string)
}
