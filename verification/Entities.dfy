/** The rows of the three databases and the messages the services exchange. Times are seconds. */
module Entities {
  import opened Wrappers
  import opened RpcErrors
  import opened Money
  import Bcrypt

  datatype Role = USER | ADMIN

  /** The identity the gateway reads from a token. */
  datatype AuthUser = AuthUser(id: int, email: string, role: Role)

  /** bcrypt: what a hash depends on, irreversibly; the salt is left out. */
  datatype PasswordHash = PasswordHash(key: seq<Bcrypt.Byte>)

  function HashPassword(password: string): PasswordHash {
    PasswordHash(Bcrypt.Key(password))
  }

  predicate ComparePassword(password: string, hash: PasswordHash) {
    HashPassword(password) == hash
  }

  datatype User = User(id: int, email: string, passwordHash: PasswordHash, role: Role)

  datatype PublicUser = PublicUser(id: int, email: string, role: Role)

  function ToPublicUser(user: User): PublicUser {
    PublicUser(user.id, user.email, user.role)
  }

  /** A row of movies; ticketPrice in cents. */
  datatype Movie = Movie(id: int, title: string, description: Option<string>, releaseYear: int,
                         durationMinutes: int, ticketPrice: int)

  datatype MovieResponse = MovieResponse(id: int, title: string, description: Option<string>, releaseYear: int,
                                         durationMinutes: int, ticketPrice: real)

  /** A row of movies as TypeORM hands it out: the decimal transformer has turned the price into a Number. */
  function MovieView(row: Movie): MovieResponse {
    MovieResponse(row.id, row.title, row.description, row.releaseYear, row.durationMinutes,
                  ReadNumeric(row.ticketPrice))
  }

  datatype OrderStatus = CONFIRMED | CANCELLED

  /** A row of orders; both prices in cents. */
  datatype Order = Order(id: int, userId: int, movieId: int, movieTitle: string, movieReleaseYear: int,
                         ticketPrice: int, quantity: int, totalPrice: int, status: OrderStatus,
                         createdAt: int, updatedAt: int)

  datatype OrderResponse = OrderResponse(id: int, userId: int, movieId: int, movieTitle: string,
                                         movieReleaseYear: int, ticketPrice: real, quantity: int,
                                         totalPrice: real, status: OrderStatus, createdAt: int, updatedAt: int)

  function OrderView(row: Order): OrderResponse {
    OrderResponse(row.id, row.userId, row.movieId, row.movieTitle, row.movieReleaseYear,
                  ReadNumeric(row.ticketPrice), row.quantity, ReadNumeric(row.totalPrice), row.status,
                  row.createdAt, row.updatedAt)
  }

  /** What a message handler answers. */
  datatype Reply =
    | UserReply(user: PublicUser)
    | TokenReply(token: string, tokenType: string, expiresIn: string)
    | MovieReply(movie: MovieResponse)
    | MoviesReply(movies: seq<MovieResponse>)
    | DeletedReply(id: int)
    | OrderReply(order: OrderResponse)
    | OrdersReply(orders: seq<OrderResponse>)
    | NoReply
    | Failed(payload: RpcErrorPayload)

  /** The exception filter at the edge of every service. */
  function Throw(thrown: Thrown): Reply {
    Failed(ToRpcErrorPayload(thrown))
  }

  function ThrowHttp(exception: HttpException): Reply {
    Throw(Http(exception))
  }

  /** What the outside world supplies to one step: the id a SERIAL column hands out, the clock, a
      signed token with its expiry, and the decimal texts the database driver writes for two Numbers. */
  datatype Env = Env(id: int, now: int, token: string, expiry: int, priceText: real, totalText: real)

  /** Table and program counter after one step of a handler. */
  datatype After<D, P> = After(db: D, pc: P)

  function {:tailrecursion false} Decimal(n: nat): string {
    if n < 10 then [Digit(n)] else Decimal(n / 10) + [Digit(n % 10)]
  }

  function Digit(d: nat): char
    requires d < 10
  {
    (d + 48) as char
  }

  function Show(n: int): string {
    if n < 0 then "-" + Decimal(-n) else Decimal(n)
  }
}
