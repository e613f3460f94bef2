/** libs/shared/src/dtos: what a request body may hold. The records are bodies that the validation pipe has
    accepted and transformed; the predicates say which ones it accepts. */
module Dtos {
  import opened Wrappers
  import opened Text

  datatype RegisterDto = RegisterDto(email: string, password: string, confirmPassword: string)

  datatype LoginDto = LoginDto(email: string, password: string)

  /** ticketPrice: the cents k of the accepted Number, which is the double nearest to k/100. */
  datatype CreateMovieDto = CreateMovieDto(title: string, description: Option<string>, releaseYear: int,
                                           durationMinutes: int, ticketPrice: int)

  /** A key of a PATCH body; @IsOptional lets a null pass all other checks. */
  datatype Field<T> = Absent | Null | Given(value: T)

  datatype UpdateMovieDto = UpdateMovieDto(title: Field<string>, description: Field<string>, releaseYear: Field<int>,
                                           durationMinutes: Field<int>, ticketPrice: Field<int>)

  const MAX_TICKETS_PER_ORDER: int := 10

  predicate ValidEmail(email: string) {
    NormalizeEmail(email) == email && email != "" && |email| <= 255
  }

  predicate ValidRegister(dto: RegisterDto) {
    ValidEmail(dto.email) && 8 <= |dto.password| <= 72 && dto.confirmPassword != ""
  }

  predicate ValidLogin(dto: LoginDto) {
    NormalizeEmail(dto.email) == dto.email && dto.email != "" && 1 <= |dto.password| <= 72
  }

  predicate ValidTitle(title: string) {
    Trimmed(title) && 1 <= |title| <= 255
  }

  predicate ValidYear(year: int) {
    1888 <= year <= 2100
  }

  predicate ValidDuration(minutes: int) {
    1 <= minutes <= 600
  }

  predicate ValidPrice(cents: int) {
    0 <= cents <= 1000000
  }

  predicate ValidDescription(text: string) {
    Trimmed(text) && |text| <= 2000
  }

  predicate ValidMovie(dto: CreateMovieDto) {
    && ValidTitle(dto.title)
    && (dto.description.Some? ==> ValidDescription(dto.description.value))
    && ValidYear(dto.releaseYear) && ValidDuration(dto.durationMinutes) && ValidPrice(dto.ticketPrice)
  }

  predicate ValidChanges(dto: UpdateMovieDto) {
    && (dto.title.Given? ==> ValidTitle(dto.title.value))
    && (dto.description.Given? ==> ValidDescription(dto.description.value))
    && (dto.releaseYear.Given? ==> ValidYear(dto.releaseYear.value))
    && (dto.durationMinutes.Given? ==> ValidDuration(dto.durationMinutes.value))
    && (dto.ticketPrice.Given? ==> ValidPrice(dto.ticketPrice.value))
  }

  predicate ValidId(id: int) {
    id > 0
  }

  predicate ValidOrder(movieId: int, quantity: int) {
    ValidId(movieId) && 1 <= quantity <= MAX_TICKETS_PER_ORDER
  }
}
