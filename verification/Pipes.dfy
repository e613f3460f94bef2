/** The validation pipes of the gateway and of the services (whitelist, forbidNonWhitelisted, transform), on
    request bodies as they come, and why validating a second time changes nothing. */
module Pipes {
  import opened Wrappers
  import opened Text
  import opened Money
  import opened Dtos

  /** A JSON value; Other stands for booleans and arrays. */
  datatype Json = JNull | Str(text: string) | Num(number: real) | Obj(properties: map<Property, Json>) | Other

  datatype Property =
    | TITLE | DESCRIPTION | RELEASE_YEAR | DURATION_MINUTES | TICKET_PRICE
    | EMAIL | PASSWORD | CONFIRM_PASSWORD
    | MOVIE_ID | QUANTITY | USER_ID
    | ID | CHANGES
    | Unlisted(name: string)

  /** The properties a body has; what is not a key is undefined. */
  type Body = map<Property, Json>

  /** The decorators of one property: @Transform, and the conjunction of its checks. */
  datatype Rule = Rule(transform: Json -> Json, accepts: Option<Json> -> bool)

  type Schema = map<Property, Rule>

  function Lookup(body: Body, key: Property): Option<Json> {
    if key in body then Some(body[key]) else None
  }

  function Transformed(schema: Schema, body: Body): (r: Body)
    requires body.Keys <= schema.Keys
  {
    map key | key in body :: schema[key].transform(body[key])
  }

  predicate Accepted(schema: Schema, body: Body) {
    forall key :: key in schema ==> schema[key].accepts(Lookup(body, key))
  }

  /** What the handler behind the pipe is given, if anything. */
  function Pipe(schema: Schema, body: Body): Option<Body> {
    if !(body.Keys <= schema.Keys) then None
    else
      var out := Transformed(schema, body);
      if Accepted(schema, out) then Some(out) else None
  }

  /** Transforming an accepted value again gives the same value. */
  ghost predicate Stable(rule: Rule) {
    forall v :: rule.accepts(Some(rule.transform(v))) ==> rule.transform(rule.transform(v)) == rule.transform(v)
  }

  ghost predicate AllStable(schema: Schema) {
    forall key :: key in schema ==> Stable(schema[key])
  }

  /** Whatever a pipe hands on, the same pipe accepts and leaves unchanged. */
  lemma PipeIsStable(schema: Schema, body: Body)
    requires AllStable(schema)
    ensures var out := Pipe(schema, body);
            out.Some? ==> Pipe(schema, out.value) == out
  {
    var out := Pipe(schema, body);
    if out.Some? {
      forall key | key in out.value ensures schema[key].transform(out.value[key]) == out.value[key] {
        assert Stable(schema[key]);
        assert schema[key].accepts(Lookup(out.value, key));
      }
      assert Transformed(schema, out.value) == out.value;
    }
  }

  /** A service whose payload has one more key, which the gateway adds, accepts what the gateway's own pipe
      hands on, unchanged. */
  lemma PipeTakesOneMore(schema: Schema, key: Property, rule: Rule, body: Body, value: Json)
    requires AllStable(schema) && key !in schema
    requires rule.transform(value) == value && rule.accepts(Some(value))
    ensures var out := Pipe(schema, body);
            out.Some? ==> Pipe(schema[key := rule], out.value[key := value]) == Some(out.value[key := value])
  {
    var out := Pipe(schema, body);
    if out.Some? {
      PipeIsStable(schema, body);
      var more := out.value[key := value];
      assert Transformed(schema[key := rule], more) == more by {
        assert Transformed(schema, out.value) == out.value;
      }
      forall k | k in schema ensures schema[k].accepts(Lookup(more, k)) {
        assert Lookup(more, k) == Lookup(out.value, k);
      }
    }
  }

  // ---- the decorators ----

  function AsIs(v: Json): Json { v }

  /** @Transform(trim) */
  function TrimJson(v: Json): Json {
    if v.Str? then Str(Trim(v.text)) else v
  }

  /** @Transform(normalizeEmail) */
  function EmailJson(lower: string -> string, v: Json): Json {
    if v.Str? then Str(Normalize(lower, v.text)) else v
  }

  predicate IsText(v: Option<Json>, min: nat, max: nat) {
    v.Some? && v.value.Str? && min <= |v.value.text| <= max
  }

  /** @IsString, @IsNotEmpty */
  predicate IsFilled(v: Option<Json>) {
    v.Some? && v.value.Str? && v.value.text != ""
  }

  /** @IsEmail, whatever its grammar */
  predicate IsAddress(isEmail: string -> bool, v: Option<Json>) {
    v.Some? && v.value.Str? && isEmail(v.value.text)
  }

  /** @IsInt, @Min, @Max */
  predicate IsIntIn(v: Option<Json>, min: int, max: int) {
    v.Some? && v.value.Num? && v.value.number.Floor as real == v.value.number && min <= v.value.number.Floor <= max
  }

  /** @IsInt, @IsPositive */
  predicate IsId(v: Option<Json>) {
    v.Some? && v.value.Num? && v.value.number.Floor as real == v.value.number && ValidId(v.value.number.Floor)
  }

  /** @IsNumber with two decimal places, @Min(0), @Max(10000): such a Number prints with at most two decimals,
      which is to say that it is the one a column holding some k cents reads as. */
  ghost predicate IsPrice(v: Option<Json>) {
    v.Some? && v.value.Num? && exists k :: ValidPrice(k) && v.value.number == ReadNumeric(k)
  }

  /** @IsOptional switches the other checks off for undefined and for null. */
  predicate Missing(v: Option<Json>) {
    v.None? || v.value.JNull?
  }

  /** @IsDefined, @ValidateNested, @Type: the property is an object, which is piped like a body. */
  function Nested(schema: Schema): Rule {
    Rule(v => NestedTransform(schema, v), v => NestedAccepts(schema, v))
  }

  function NestedTransform(schema: Schema, v: Json): Json {
    if v.Obj? && v.properties.Keys <= schema.Keys then Obj(Transformed(schema, v.properties)) else v
  }

  predicate NestedAccepts(schema: Schema, v: Option<Json>) {
    v.Some? && v.value.Obj? && v.value.properties.Keys <= schema.Keys && Accepted(schema, v.value.properties)
  }

  /** The nested object is accepted, and transformed, just as it would be on its own. */
  lemma NestedIsPipe(schema: Schema, body: Body)
    ensures var nested := Nested(schema).transform(Obj(body));
            nested.Obj? &&
            if Nested(schema).accepts(Some(nested)) then Pipe(schema, body) == Some(nested.properties)
            else Pipe(schema, body) == None
  {
  }

  // ---- the bodies ----

  ghost function MovieSchema(): Schema {
    map[TITLE := Rule(TrimJson, v => IsText(v, 1, 255)),
        DESCRIPTION := Rule(TrimJson, v => Missing(v) || IsText(v, 0, 2000)),
        RELEASE_YEAR := Rule(AsIs, v => IsIntIn(v, 1888, 2100)),
        DURATION_MINUTES := Rule(AsIs, v => IsIntIn(v, 1, 600)),
        TICKET_PRICE := Rule(AsIs, v => IsPrice(v))]
  }

  /** PartialType(CreateMovieDto): @IsOptional on every property. */
  ghost function ChangesSchema(): Schema {
    map[TITLE := Rule(TrimJson, v => Missing(v) || IsText(v, 1, 255)),
        DESCRIPTION := Rule(TrimJson, v => Missing(v) || IsText(v, 0, 2000)),
        RELEASE_YEAR := Rule(AsIs, v => Missing(v) || IsIntIn(v, 1888, 2100)),
        DURATION_MINUTES := Rule(AsIs, v => Missing(v) || IsIntIn(v, 1, 600)),
        TICKET_PRICE := Rule(AsIs, v => Missing(v) || IsPrice(v))]
  }

  /** UpdateMoviePayload: the message to the catalog, with the changes nested in it. */
  ghost function UpdatePayloadSchema(): Schema {
    map[ID := Rule(AsIs, v => IsId(v)), CHANGES := Nested(ChangesSchema())]
  }

  function UpdatePayload(id: int, changes: Body): Body {
    map[ID := Num(id as real), CHANGES := Obj(changes)]
  }

  ghost function RegisterSchema(lower: string -> string, isEmail: string -> bool): Schema {
    map[EMAIL := Rule(v => EmailJson(lower, v),
                        v => IsAddress(isEmail, v) && IsText(v, 0, 255)),
        PASSWORD := Rule(AsIs, v => IsText(v, 8, 72)),
        CONFIRM_PASSWORD := Rule(AsIs, v => IsFilled(v))]
  }

  ghost function LoginSchema(lower: string -> string, isEmail: string -> bool): Schema {
    map[EMAIL := Rule(v => EmailJson(lower, v), v => IsAddress(isEmail, v)),
        PASSWORD := Rule(AsIs, v => IsText(v, 1, 72))]
  }

  ghost function OrderSchema(): Schema {
    map[MOVIE_ID := Rule(AsIs, v => IsId(v)),
        QUANTITY := Rule(AsIs, v => IsIntIn(v, 1, MAX_TICKETS_PER_ORDER))]
  }

  ghost function OrderPayloadSchema(): Schema {
    OrderSchema()[USER_ID := Rule(AsIs, v => IsId(v))]
  }

  // ---- double validation ----

  lemma TrimJsonIsIdempotent(v: Json)
    ensures TrimJson(TrimJson(v)) == TrimJson(v)
  {
    if v.Str? { TrimIsIdempotent(v.text); }
  }

  lemma EmailJsonIsIdempotent(lower: string -> string, v: Json)
    requires Lowering(lower)
    ensures EmailJson(lower, EmailJson(lower, v)) == EmailJson(lower, v)
  {
    if v.Str? { NormalizeIsIdempotent(lower, v.text); }
  }

  /** A movie body that the gateway accepts, the catalog service accepts and leaves unchanged. */
  lemma MovieBodyIsStable(body: Body)
    ensures var out := Pipe(MovieSchema(), body);
            out.Some? ==> Pipe(MovieSchema(), out.value) == out
  {
    forall v ensures TrimJson(TrimJson(v)) == TrimJson(v) { TrimJsonIsIdempotent(v); }
    assert AllStable(MovieSchema());
    PipeIsStable(MovieSchema(), body);
  }

  /** The catalog service takes {id, changes} if and only if the id is positive and the gateway's pipe takes the
      changes on their own, and then hands on just what the gateway's pipe does. */
  lemma UpdatePayloads(id: int, body: Body)
    ensures Pipe(UpdatePayloadSchema(), UpdatePayload(id, body))
            == if ValidId(id) && Pipe(ChangesSchema(), body).Some?
               then Some(UpdatePayload(id, Pipe(ChangesSchema(), body).value)) else None
  {
    var nested := Nested(ChangesSchema()).transform(Obj(body));
    NestedIsPipe(ChangesSchema(), body);
    PayloadTransformed(id, body);
    PayloadAccepted(id, UpdatePayload(id, nested.properties));
    hide ChangesSchema, Nested, UpdatePayloadSchema, Transformed, Accepted;
    assert Pipe(UpdatePayloadSchema(), UpdatePayload(id, body))
           == if ValidId(id) && Nested(ChangesSchema()).accepts(Some(nested))
              then Some(UpdatePayload(id, nested.properties)) else None;
    hide Pipe;
  }

  lemma PayloadTransformed(id: int, body: Body)
    ensures UpdatePayload(id, body).Keys <= UpdatePayloadSchema().Keys
    ensures var nested := Nested(ChangesSchema()).transform(Obj(body));
            nested.Obj? && Transformed(UpdatePayloadSchema(), UpdatePayload(id, body))
                           == UpdatePayload(id, nested.properties)
  {
    NestedIsPipe(ChangesSchema(), body);
    var schema := UpdatePayloadSchema();
    hide ChangesSchema, Nested, Pipe;
    assert schema.Keys == {ID, CHANGES} && schema[CHANGES] == Nested(ChangesSchema());
  }

  lemma PayloadAccepted(id: int, out: Body)
    requires ID in out && out[ID] == Num(id as real) && CHANGES in out
    ensures Accepted(UpdatePayloadSchema(), out)
            <==> ValidId(id) && Nested(ChangesSchema()).accepts(Some(out[CHANGES]))
  {
    var schema, nested := UpdatePayloadSchema(), Nested(ChangesSchema());
    hide ChangesSchema, Nested;
    assert schema.Keys == {ID, CHANGES} && schema[CHANGES] == nested;
    assert schema[ID].accepts(Lookup(out, ID)) == ValidId(id);
    assert schema[CHANGES].accepts(Lookup(out, CHANGES)) == nested.accepts(Some(out[CHANGES]));
  }

  /** The changes that the gateway accepts pass its pipe a second time, and the catalog service's with the id
      beside them, unchanged. */
  lemma ChangesBodyIsStable(body: Body, id: int)
    requires ValidId(id)
    ensures var out := Pipe(ChangesSchema(), body);
            out.Some? ==>
              && Pipe(ChangesSchema(), out.value) == out
              && Pipe(UpdatePayloadSchema(), UpdatePayload(id, out.value)) == Some(UpdatePayload(id, out.value))
  {
    forall v ensures TrimJson(TrimJson(v)) == TrimJson(v) { TrimJsonIsIdempotent(v); }
    assert AllStable(ChangesSchema());
    PipeIsStable(ChangesSchema(), body);
    hide Pipe, ChangesSchema;
    if Pipe(ChangesSchema(), body).Some? {
      UpdatePayloads(id, Pipe(ChangesSchema(), body).value);
    }
  }

  lemma CredentialsAreStable(lower: string -> string, isEmail: string -> bool, body: Body)
    requires Lowering(lower)
    ensures var out := Pipe(RegisterSchema(lower, isEmail), body);
            out.Some? ==> Pipe(RegisterSchema(lower, isEmail), out.value) == out
    ensures var out := Pipe(LoginSchema(lower, isEmail), body);
            out.Some? ==> Pipe(LoginSchema(lower, isEmail), out.value) == out
  {
    forall v ensures EmailJson(lower, EmailJson(lower, v)) == EmailJson(lower, v) { EmailJsonIsIdempotent(lower, v); }
    assert AllStable(RegisterSchema(lower, isEmail));
    assert AllStable(LoginSchema(lower, isEmail));
    PipeIsStable(RegisterSchema(lower, isEmail), body);
    PipeIsStable(LoginSchema(lower, isEmail), body);
  }

  /** An order body that the gateway accepts, with the token's user id added, the order service accepts and
      leaves unchanged. */
  lemma OrderBodyIsStable(body: Body, userId: int)
    requires ValidId(userId)
    ensures var out := Pipe(OrderSchema(), body);
            out.Some? ==>
              var payload := out.value[USER_ID := Num(userId as real)];
              Pipe(OrderPayloadSchema(), payload) == Some(payload)
  {
    assert AllStable(OrderSchema());
    PipeTakesOneMore(OrderSchema(), USER_ID, Rule(AsIs, v => IsId(v)), body, Num(userId as real));
  }

  // ---- the typed bodies that the services handle ----

  function JsonOf(text: Option<string>): Json {
    if text.Some? then Str(text.value) else JNull
  }

  function BodyOf(dto: CreateMovieDto): Body {
    map[TITLE := Str(dto.title), DESCRIPTION := JsonOf(dto.description),
        RELEASE_YEAR := Num(dto.releaseYear as real), DURATION_MINUTES := Num(dto.durationMinutes as real),
        TICKET_PRICE := Num(ReadNumeric(dto.ticketPrice))]
  }

  /** The body and the record say the same; a missing description is a null one. */
  ghost predicate Says(body: Body, dto: CreateMovieDto) {
    && Lookup(body, TITLE) == Some(Str(dto.title))
    && (if dto.description.Some? then Lookup(body, DESCRIPTION) == Some(Str(dto.description.value))
        else Missing(Lookup(body, DESCRIPTION)))
    && Lookup(body, RELEASE_YEAR) == Some(Num(dto.releaseYear as real))
    && Lookup(body, DURATION_MINUTES) == Some(Num(dto.durationMinutes as real))
    && Lookup(body, TICKET_PRICE) == Some(Num(ReadNumeric(dto.ticketPrice)))
  }

  lemma FieldsOf(schema: Schema, body: Body)
    requires Pipe(schema, body).Some?
    ensures var out := Pipe(schema, body).value;
            && out.Keys == body.Keys <= schema.Keys
            && (forall key :: key in out ==> out[key] == schema[key].transform(body[key]))
            && (forall key :: key in schema ==> schema[key].accepts(Lookup(out, key)))
  {
  }

  /** The properties of a movie body that the pipe has handed on. */
  lemma MovieFields(body: Body)
    requires Pipe(MovieSchema(), body).Some?
    ensures var out := Pipe(MovieSchema(), body).value;
            && IsText(Lookup(out, TITLE), 1, 255) && Trimmed(out[TITLE].text)
            && (Missing(Lookup(out, DESCRIPTION))
                || (IsText(Lookup(out, DESCRIPTION), 0, 2000) && Trimmed(out[DESCRIPTION].text)))
            && IsIntIn(Lookup(out, RELEASE_YEAR), 1888, 2100) && IsIntIn(Lookup(out, DURATION_MINUTES), 1, 600)
            && IsPrice(Lookup(out, TICKET_PRICE))
  {
    var out := Pipe(MovieSchema(), body).value;
    FieldsOf(MovieSchema(), body);
    hide Pipe, ReadNumeric, Trim;
    assert TITLE in MovieSchema() && DESCRIPTION in MovieSchema() && TICKET_PRICE in MovieSchema();
    assert RELEASE_YEAR in MovieSchema() && DURATION_MINUTES in MovieSchema();
    var _, _ := TrimStrips(body[TITLE].text);
    if DESCRIPTION in body && body[DESCRIPTION].Str? {
      var _, _ := TrimStrips(body[DESCRIPTION].text);
    }
  }

  lemma SaidOnce(body: Body, dto: CreateMovieDto, other: CreateMovieDto)
    requires Says(body, dto) && ValidMovie(dto) && Says(body, other) && ValidMovie(other)
    ensures other == dto
  {
    ReadIsInjective(other.ticketPrice, dto.ticketPrice);
  }

  /** The pipe hands on exactly the valid movies: each accepted body is one valid record and no other, ... */
  lemma AcceptedMovieIsValid(body: Body) returns (dto: CreateMovieDto)
    requires Pipe(MovieSchema(), body).Some?
    ensures Says(Pipe(MovieSchema(), body).value, dto) && ValidMovie(dto)
    ensures forall other :: Says(Pipe(MovieSchema(), body).value, other) && ValidMovie(other) ==> other == dto
  {
    var out := Pipe(MovieSchema(), body).value;
    MovieFields(body);
    hide Pipe, MovieSchema, ReadNumeric;
    var description := Lookup(out, DESCRIPTION);
    var cents :| ValidPrice(cents) && out[TICKET_PRICE].number == ReadNumeric(cents);
    dto := CreateMovieDto(out[TITLE].text, if Missing(description) then None else Some(description.value.text),
                          out[RELEASE_YEAR].number.Floor, out[DURATION_MINUTES].number.Floor, cents);
    forall other | Says(out, other) && ValidMovie(other) ensures other == dto {
      SaidOnce(out, dto, other);
    }
  }

  /** A body whose properties are all in order passes the pipe as it is. */
  lemma FixedByPipe(schema: Schema, body: Body)
    requires body.Keys <= schema.Keys
    requires forall key :: key in body ==> schema[key].transform(body[key]) == body[key]
    requires forall key :: key in schema ==> schema[key].accepts(Lookup(body, key))
    ensures Pipe(schema, body) == Some(body)
  {
    assert Transformed(schema, body) == body;
  }

  lemma PropertyPasses(dto: CreateMovieDto, key: Property)
    requires ValidMovie(dto) && key in MovieSchema()
    ensures key in BodyOf(dto) && MovieSchema()[key].transform(BodyOf(dto)[key]) == BodyOf(dto)[key]
    ensures MovieSchema()[key].accepts(Lookup(BodyOf(dto), key))
  {
  }

  /** ... and each valid record is accepted, and handed on as it is. */
  lemma ValidMovieIsAccepted(dto: CreateMovieDto)
    requires ValidMovie(dto)
    ensures Pipe(MovieSchema(), BodyOf(dto)) == Some(BodyOf(dto)) && Says(BodyOf(dto), dto)
  {
    assert BodyOf(dto).Keys <= MovieSchema().Keys;
    forall key | key in MovieSchema()
      ensures key in BodyOf(dto) && MovieSchema()[key].transform(BodyOf(dto)[key]) == BodyOf(dto)[key]
      ensures MovieSchema()[key].accepts(Lookup(BodyOf(dto), key))
    {
      PropertyPasses(dto, key);
    }
    hide MovieSchema;
    FixedByPipe(MovieSchema(), BodyOf(dto));
  }

  // The same for changes, where a property may be missing or null.

  /** The body has this property if and only if the record does, with the same value. */
  ghost predicate SaysField<T>(body: Body, key: Property, field: Field<T>, json: T -> Json) {
    Lookup(body, key) == match field case Absent => None case Null => Some(JNull) case Given(v) => Some(json(v))
  }

  ghost predicate SaysChanges(body: Body, dto: UpdateMovieDto) {
    && body.Keys <= {TITLE, DESCRIPTION, RELEASE_YEAR, DURATION_MINUTES, TICKET_PRICE}
    && SaysField(body, TITLE, dto.title, (t: string) => Str(t))
    && SaysField(body, DESCRIPTION, dto.description, (t: string) => Str(t))
    && SaysField(body, RELEASE_YEAR, dto.releaseYear, (n: int) => Num(n as real))
    && SaysField(body, DURATION_MINUTES, dto.durationMinutes, (n: int) => Num(n as real))
    && SaysField(body, TICKET_PRICE, dto.ticketPrice, (c: int) => Num(ReadNumeric(c)))
  }

  function TextField(v: Option<Json>): Field<string> {
    if v.None? then Absent else if v.value.Str? then Given(v.value.text) else Field.Null
  }

  function IntField(v: Option<Json>): Field<int> {
    if v.None? then Absent else if v.value.Num? then Given(v.value.number.Floor) else Field.Null
  }

  /** The properties of a changes body that the pipe has handed on. */
  lemma ChangesFields(body: Body)
    requires Pipe(ChangesSchema(), body).Some?
    ensures var out := Pipe(ChangesSchema(), body).value;
            && out.Keys <= {TITLE, DESCRIPTION, RELEASE_YEAR, DURATION_MINUTES, TICKET_PRICE}
            && (Missing(Lookup(out, TITLE)) || (IsText(Lookup(out, TITLE), 1, 255) && Trimmed(out[TITLE].text)))
            && (Missing(Lookup(out, DESCRIPTION))
                || (IsText(Lookup(out, DESCRIPTION), 0, 2000) && Trimmed(out[DESCRIPTION].text)))
            && (Missing(Lookup(out, RELEASE_YEAR)) || IsIntIn(Lookup(out, RELEASE_YEAR), 1888, 2100))
            && (Missing(Lookup(out, DURATION_MINUTES)) || IsIntIn(Lookup(out, DURATION_MINUTES), 1, 600))
            && (Missing(Lookup(out, TICKET_PRICE)) || IsPrice(Lookup(out, TICKET_PRICE)))
  {
    var out := Pipe(ChangesSchema(), body).value;
    FieldsOf(ChangesSchema(), body);
    hide Pipe, ReadNumeric, Trim;
    assert ChangesSchema().Keys == {TITLE, DESCRIPTION, RELEASE_YEAR, DURATION_MINUTES, TICKET_PRICE};
    if TITLE in body && body[TITLE].Str? {
      var _, _ := TrimStrips(body[TITLE].text);
    }
    if DESCRIPTION in body && body[DESCRIPTION].Str? {
      var _, _ := TrimStrips(body[DESCRIPTION].text);
    }
  }

  lemma TextFieldSays(body: Body, key: Property)
    requires key in body ==> body[key].JNull? || body[key].Str?
    ensures SaysField(body, key, TextField(Lookup(body, key)), (t: string) => Str(t))
  {
  }

  lemma IntFieldSays(body: Body, key: Property, min: int, max: int)
    requires Missing(Lookup(body, key)) || IsIntIn(Lookup(body, key), min, max)
    ensures SaysField(body, key, IntField(Lookup(body, key)), (n: int) => Num(n as real))
  {
  }

  lemma PriceFieldSays(body: Body, key: Property) returns (price: Field<int>)
    requires Missing(Lookup(body, key)) || IsPrice(Lookup(body, key))
    ensures SaysField(body, key, price, (c: int) => Num(ReadNumeric(c)))
    ensures price.Given? ==> ValidPrice(price.value)
  {
    hide ReadNumeric;
    price := if key in body then Field.Null else Absent;
    if !Missing(Lookup(body, key)) {
      var cents :| ValidPrice(cents) && body[key].number == ReadNumeric(cents);
      price := Given(cents);
    }
  }

  /** Each accepted body says valid changes, ... */
  lemma AcceptedChangesAreValid(body: Body) returns (dto: UpdateMovieDto)
    requires Pipe(ChangesSchema(), body).Some?
    ensures SaysChanges(Pipe(ChangesSchema(), body).value, dto) && ValidChanges(dto)
  {
    var out := Pipe(ChangesSchema(), body).value;
    ChangesFields(body);
    var price := PriceFieldSays(out, TICKET_PRICE);
    TextFieldSays(out, TITLE);
    TextFieldSays(out, DESCRIPTION);
    IntFieldSays(out, RELEASE_YEAR, 1888, 2100);
    IntFieldSays(out, DURATION_MINUTES, 1, 600);
    dto := UpdateMovieDto(TextField(Lookup(out, TITLE)), TextField(Lookup(out, DESCRIPTION)),
                          IntField(Lookup(out, RELEASE_YEAR)), IntField(Lookup(out, DURATION_MINUTES)), price);
    hide Pipe, ChangesSchema, ReadNumeric, Trimmed, SaysField;
  }

  /** ... and every body that says valid changes passes as it is. */
  lemma ValidChangesAreAccepted(body: Body, dto: UpdateMovieDto)
    requires SaysChanges(body, dto) && ValidChanges(dto)
    ensures Pipe(ChangesSchema(), body) == Some(body)
  {
    var schema := ChangesSchema();
    assert schema.Keys == {TITLE, DESCRIPTION, RELEASE_YEAR, DURATION_MINUTES, TICKET_PRICE};
    forall key | key in schema
      ensures key in body ==> schema[key].transform(body[key]) == body[key]
      ensures schema[key].accepts(Lookup(body, key))
    {
      ChangePasses(body, dto, key);
    }
    hide ChangesSchema, ReadNumeric, SaysChanges;
    FixedByPipe(schema, body);
  }

  lemma ChangePasses(body: Body, dto: UpdateMovieDto, key: Property)
    requires SaysChanges(body, dto) && ValidChanges(dto) && key in ChangesSchema()
    ensures key in body ==> ChangesSchema()[key].transform(body[key]) == body[key]
    ensures ChangesSchema()[key].accepts(Lookup(body, key))
  {
    hide ReadNumeric;
    if dto.title.Given? { TrimFixesTrimmed(dto.title.value); }
    if dto.description.Given? { TrimFixesTrimmed(dto.description.value); }
    hide Trim, Trimmed;
  }

  /** The same for orders. */
  lemma OrderBodies(movieId: int, quantity: int, body: Body)
    requires body == map[MOVIE_ID := Num(movieId as real), QUANTITY := Num(quantity as real)]
    ensures Pipe(OrderSchema(), body) == if ValidOrder(movieId, quantity) then Some(body) else None
  {
    assert Transformed(OrderSchema(), body) == body;
    assert Accepted(OrderSchema(), body) <==> IsId(Lookup(body, MOVIE_ID)) && IsIntIn(Lookup(body, QUANTITY), 1, 10);
  }

  function TextAt(body: Body, key: Property): string {
    if key in body && body[key].Str? then body[key].text else ""
  }

  /** The text is an address as the transform leaves it. */
  ghost predicate NormalAddress(lower: string -> string, isEmail: string -> bool, text: string) {
    isEmail(text) && Normalize(lower, text) == text
  }

  /** Registrations and logins that pass carry a normalised address and a password of a length that the DTO
      allows, whatever counts as an address and however letters are lowered. */
  lemma AcceptedCredentialsAreNormal(lower: string -> string, isEmail: string -> bool, body: Body)
    requires Lowering(lower)
    ensures var out := Pipe(RegisterSchema(lower, isEmail), body);
            out.Some? ==>
              && NormalAddress(lower, isEmail, TextAt(out.value, EMAIL)) && |TextAt(out.value, EMAIL)| <= 255
              && 8 <= |TextAt(out.value, PASSWORD)| <= 72 && TextAt(out.value, CONFIRM_PASSWORD) != ""
    ensures var out := Pipe(LoginSchema(lower, isEmail), body);
            out.Some? ==>
              NormalAddress(lower, isEmail, TextAt(out.value, EMAIL)) && 1 <= |TextAt(out.value, PASSWORD)| <= 72
  {
    var register, login := RegisterSchema(lower, isEmail), LoginSchema(lower, isEmail);
    if Pipe(register, body).Some? {
      FieldsOf(register, body);
      assert register[EMAIL].accepts(Lookup(Pipe(register, body).value, EMAIL));
      assert register[PASSWORD].accepts(Lookup(Pipe(register, body).value, PASSWORD));
      assert register[CONFIRM_PASSWORD].accepts(Lookup(Pipe(register, body).value, CONFIRM_PASSWORD));
      NormalizeIsIdempotent(lower, body[EMAIL].text);
    }
    if Pipe(login, body).Some? {
      FieldsOf(login, body);
      assert login[EMAIL].accepts(Lookup(Pipe(login, body).value, EMAIL));
      assert login[PASSWORD].accepts(Lookup(Pipe(login, body).value, PASSWORD));
      NormalizeIsIdempotent(lower, body[EMAIL].text);
    }
  }

  /** With the lowering of ASCII letters these are the typed bodies of the services. */
  lemma AcceptedCredentialsAreValid(isEmail: string -> bool, body: Body)
    requires !isEmail("")
    ensures var out := Pipe(RegisterSchema(LowerAscii, isEmail), body);
            out.Some? ==>
              && ValidRegister(RegisterDto(TextAt(out.value, EMAIL), TextAt(out.value, PASSWORD),
                                           TextAt(out.value, CONFIRM_PASSWORD)))
              && forall k: nat :: k < 26 ==> Upper(k) !in TextAt(out.value, EMAIL)
    ensures var out := Pipe(LoginSchema(LowerAscii, isEmail), body);
            out.Some? ==>
              && ValidLogin(LoginDto(TextAt(out.value, EMAIL), TextAt(out.value, PASSWORD)))
              && forall k: nat :: k < 26 ==> Upper(k) !in TextAt(out.value, EMAIL)
  {
    var register := Pipe(RegisterSchema(LowerAscii, isEmail), body);
    var login := Pipe(LoginSchema(LowerAscii, isEmail), body);
    if register.Some? {
      NormalizeEmailLowers(TextAt(register.value, EMAIL));
    }
    if login.Some? {
      NormalizeEmailLowers(TextAt(login.value, EMAIL));
    }
    LowerAsciiIsLowering();
    AcceptedCredentialsAreNormal(LowerAscii, isEmail, body);
    hide RegisterSchema, LoginSchema, Pipe, TextAt;
  }

  /** And all of these are accepted, as far as the address is one, as they are. */
  lemma ValidCredentialsAreAccepted(isEmail: string -> bool, register: RegisterDto, login: LoginDto)
    requires isEmail(register.email) && isEmail(login.email)
    ensures ValidRegister(register) ==>
              var body := map[EMAIL := Str(register.email), PASSWORD := Str(register.password),
                              CONFIRM_PASSWORD := Str(register.confirmPassword)];
              Pipe(RegisterSchema(LowerAscii, isEmail), body) == Some(body)
    ensures ValidLogin(login) ==>
              var body := map[EMAIL := Str(login.email), PASSWORD := Str(login.password)];
              Pipe(LoginSchema(LowerAscii, isEmail), body) == Some(body)
  {
    hide Trim, LowerAscii;
    if ValidRegister(register) {
      FixedByPipe(RegisterSchema(LowerAscii, isEmail),
                  map[EMAIL := Str(register.email), PASSWORD := Str(register.password),
                      CONFIRM_PASSWORD := Str(register.confirmPassword)]);
    }
    if ValidLogin(login) {
      FixedByPipe(LoginSchema(LowerAscii, isEmail), map[EMAIL := Str(login.email), PASSWORD := Str(login.password)]);
    }
  }

  /** Case and surrounding white space of the address make no difference to what the services are given. */
  lemma SpellingMakesNoDifference(isEmail: string -> bool, body: Body, email: string, other: string)
    requires EMAIL in body && body[EMAIL] == Str(email) && SameAddress(email, other)
    ensures Pipe(RegisterSchema(LowerAscii, isEmail), body[EMAIL := Str(other)])
            == Pipe(RegisterSchema(LowerAscii, isEmail), body)
    ensures Pipe(LoginSchema(LowerAscii, isEmail), body[EMAIL := Str(other)])
            == Pipe(LoginSchema(LowerAscii, isEmail), body)
  {
    NormalizeEmailTells(email, other);
    assert EmailJson(LowerAscii, Str(other)) == EmailJson(LowerAscii, Str(email));
    hide NormalizeEmail, SameAddress, EmailJson;
    Respelt(RegisterSchema(LowerAscii, isEmail), body, Str(other));
    Respelt(LoginSchema(LowerAscii, isEmail), body, Str(other));
  }

  lemma Respelt(schema: Schema, body: Body, value: Json)
    requires EMAIL in body && EMAIL in schema && schema[EMAIL].transform(value) == schema[EMAIL].transform(body[EMAIL])
    ensures Pipe(schema, body[EMAIL := value]) == Pipe(schema, body)
  {
    var respelt := body[EMAIL := value];
    assert respelt.Keys == body.Keys;
    if body.Keys <= schema.Keys {
      assert Transformed(schema, respelt) == Transformed(schema, body);
    }
  }
}
