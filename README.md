# parkease core, modelled in Dafny

parkease is a car-park system. An entry camera (app/cam.py) looks for number
plates in every frame. A Flask web application (app/routes.py) lets users
register vehicles and receives an occupancy sensor's readings. This project
models two cores of that system and proves properties of them.

**The plate pipeline of app/cam.py**
- `ordenar_puntos` orders the four vertices of a quadrilateral by the arg-min
  and arg-max of x + y and of `np.diff(..., axis=1)`, i.e. y − x
  (module `Geometry`).
- The size and destination rectangle of `enderezar_imagen`. Lengths are
  `int(norm)` of integer vectors, so they are floor square roots
  (module `Geometry`).
- The body of the camera loop, lifted into the method `Detection.Detect` over
  the contours of one frame:
  - the first pass: area above 150 and convex approximation;
  - the second pass: 4 or 3 vertices;
  - the inner-contour gate (more than 10);
  - rectification;
  - the 5-pixel border trim with Python's slice rules (module `Crop`);
  - the OCR clean-up and the length ≥ 5 plate test (module `PlateText`).
- The OpenCV and Tesseract calls are not modelled. Each contour arrives as a
  descriptor holding what those calls report about it.

**The handlers of app/routes.py**
- The class `Routes.App` holds the `users` ids, the `vehiculos` rows by id,
  the session's `user_id`, the global `sensor_status` and the
  `parking_superior` occupancy.
- Its methods mirror these handlers:
  - `create_vehicle`, `edit_vehicle` and `delete_vehicle`;
  - the vehicle insert of `register`;
  - `receive_sensor_data`.
- Each method is proved to agree with a pure function of module `Registry`
  or `Sensor` and to keep the database invariants. The invariants are unique
  non-null plates, owners that exist, and ids below the next one handed out.
- Module `PyInt` models Python's `int()` on a string, which `/sensor` relies
  on. Module `Sensor` models JSON truthiness, `in`, subscripting, and the
  exceptions the handler does and does not catch.

Facts about the code that the model keeps as they are:
- The second ordering key is y − x (numpy's `diff` along axis 1), not x − y.
  Top-right is therefore the minimum of y − x and bottom-left the maximum.
- OCR is called with `lang='eng'` only. There is no character whitelist and no
  thresholding step.
- Nothing guards a degenerate quadrilateral of width or height 0. The model
  makes that an explicit precondition (`Geometry.Rectifiable`) rather than
  inventing a rejection path.
- The corners are not always a permutation of the input:
  `Geometry.DiamondRepeatsCorner` shows a square standing on a corner for
  which top-left and top-right are the same vertex.
- A plate at most 10 pixels wide or high is trimmed to an empty image.
  Showing it raises, and the `except` around the loop body abandons the rest
  of the frame. `Detection.Detect` reports this as `aborted`.
- `/sensor` answers 400 only for a ValueError or a body without "status".
  - `int(None)`, `int([..])` and `int({..})` raise TypeError, which escapes
    the handler (a 500).
  - A JSON list containing `"status"` passes the `in` test and then fails to
    subscript, also a 500.
  - Any integer is stored; nothing checks for 0 or 1.
  - The sensor program sends `sensorID`, `plazaID` and `estado`, with no
    `status`, so each of its readings is answered "Datos inválidos".

## Model

| member | source | states |
|---|---|---|
| Geometry.ArgMin | app/cam.py:19-22 | the index of a smallest key, and every earlier key is strictly larger (numpy's first occurrence) |
| Geometry.ArgMax | app/cam.py:20-22 | the index of a largest key, and every earlier key is strictly smaller |
| Geometry.OrderPoints | app/cam.py:14-23 | every corner is an input point; top-left/bottom-right have the least/greatest x + y, top-right/bottom-left the least/greatest y − x |
| Geometry.OrderPointsFirstOccurrence | app/cam.py:19-22 | on ties each corner is the earliest input point with its extreme key |
| Geometry.OrderIgnoresInputOrder | app/cam.py:14-23 | without ties at the four extremes, any reordering of the vertices yields the same corners |
| Geometry.DiamondRepeatsCorner | app/cam.py:16-23 | for a square standing on a corner, top-left and top-right are the same vertex, so the result is not a permutation of the input |
| Geometry.FloorSqrt | app/cam.py:30-35 | the result r satisfies r² ≤ n < (r+1)² |
| Geometry.FloorSqrtUnique | app/cam.py:30-35 | only one natural number brackets n in that way, so the truncated length is determined |
| Geometry.EdgeLengthExact | app/cam.py:30-35 | `int(norm(p − q))` is the one natural number whose square and next square bracket the squared distance |
| Geometry.TargetSize | app/cam.py:29-35 | the width is the larger of the two truncated horizontal edges, the height the larger of the two truncated vertical edges |
| Geometry.Destination | app/cam.py:37-42 | the destination is the rectangle from (0, 0) to (w − 1, h − 1), listed TL, TR, BR, BL, and lies inside a w × h image |
| Geometry.Straighten | app/cam.py:25-42 | the source corners are the ordered vertices, the size is their target size (at least 1×1 for a non-degenerate quadrilateral), and the destination is the rectangle of that size at the origin |
| Geometry.AxisAlignedRectangle | app/cam.py:14-42 | an axis-aligned rectangle in any vertex order comes back as TL, TR, BR, BL; the size is its side lengths; the destination is that rectangle at the origin |
| Crop.SliceIndex | app/cam.py:113 | a slice bound is normalised as Python does: a negative bound counts from the end, and every bound is clamped to [0, n] |
| Crop.Slice | app/cam.py:113 | `s[start:stop]` has the normalised length, and its k-th element is the one at the normalised start plus k |
| Crop.TrimmedLength | app/cam.py:111-113 | an axis of length n keeps n − 10 pixels when n > 10, and none otherwise |
| Crop.TrimShape | app/cam.py:111-113 | the trimmed image is max(0, h − 10) × max(0, w − 10), with the colour planes unchanged |
| Crop.CropBorder | app/cam.py:111-113 | each pixel of the trimmed image is the pixel 5 rows down and 5 columns right in the original; the dimensions are trimmed as above |
| PlateText.Clean | app/cam.py:119 | the result is all alphanumeric, no longer than the input, and built from its characters |
| PlateText.CleanConcat | app/cam.py:119 | cleaning distributes over concatenation, so together with CleanSingle it keeps exactly the alphanumeric characters, in order |
| PlateText.CleanSingle | app/cam.py:119 | one character survives exactly when it is alphanumeric |
| PlateText.CleanFixedPoint | app/cam.py:119 | a text is unchanged by cleaning if and only if it is all alphanumeric |
| PlateText.CleanIdempotent | app/cam.py:119 | cleaning twice is cleaning once |
| PlateText.CleanLength | app/cam.py:119 | the cleaned length is the number of alphanumeric characters |
| PlateText.Recognize | app/cam.py:119-125 | a plate is reported if and only if at least 5 alphanumeric characters survive, and the plate is then the cleaned text |
| PlateText.RecognizeStable | app/cam.py:119-125 | a recognised plate, read again, gives the same plate |
| Detection.FilterMembers | app/cam.py:73-81 | a filter keeps exactly the elements its test accepts |
| Detection.FilterConcat | app/cam.py:72-81 | filtering a concatenation is the concatenation of the filtered parts, so input order is kept |
| Detection.ReadOne | app/cam.py:117-125 | a plate, when one is reported, is the cleaned OCR text |
| Detection.ReadOneFields | app/cam.py:107-125 | a reading holds the rectification of the coarse approximation, its output size trimmed by 5 pixels on every side with 3 colour planes, the cleaned OCR text and the plate Recognize finds in it |
| Detection.ReadOneParts | app/cam.py:109-115 | a read rectangle abandons the frame exactly when its trimmed image is empty, and otherwise its reading is built from the rectification, the trim and the OCR text |
| Detection.ReadRectangle | app/cam.py:107-125 | the body for a gated rectangle yields nothing exactly when the frame is abandoned, and otherwise the rectangle's reading |
| Detection.NarrowRectangleAborts | app/cam.py:109-115 | an axis-aligned rectangle at most 10 pixels wide or high abandons the frame when it is read |
| Detection.AbortStep | app/cam.py:107-115 | up to the first abandoning candidate, a candidate abandons the frame exactly when it is that one |
| Detection.Readings | app/cam.py:98-125 | there is one reading per candidate with 4 vertices and more than 10 inner contours |
| Detection.ReadingsMatchGated | app/cam.py:98-125 | the k-th reading belongs to the k-th candidate, in order, with 4 vertices and more than 10 inner contours |
| Detection.ReadingsStep | app/cam.py:98-125 | each candidate adds its own reading, if it is read, after those of the earlier candidates |
| Detection.Detect | app/cam.py:72-129 | the first loop builds the in-order list of contours with area > 150 and convex approximation; the second keeps, in order, those with 4 or 3 vertices and reads the gated rectangles, and stops at the first rectangle whose trimmed image is empty, which is kept but not read |
| Detection.SecondLoop | app/cam.py:88-129 | the second loop alone: it stops exactly when some candidate abandons the frame; the kept list and the readings are those of the candidates before that one (the kept list includes it) |
| Detection.KeptContours | app/cam.py:72-101 | in a frame that is not abandoned, a contour is kept if and only if it is in the frame, has area > 150, a convex approximation and 4 or 3 vertices |
| PyInt.StripLeft | app/routes.py:29 | the result is empty or does not start with whitespace |
| PyInt.StripRight | app/routes.py:29 | the result is empty or does not end with whitespace |
| PyInt.StripLeftSuffix | app/routes.py:29 | the result is a suffix of the input and what was removed is all whitespace |
| PyInt.StripRightPrefix | app/routes.py:29 | the result is a prefix of the input and what was removed is all whitespace |
| PyInt.DropUnderscoresConcat | app/routes.py:29 | removing underscores distributes over concatenation, so the other characters keep their order |
| PyInt.DropUnderscoresSingle | app/routes.py:29 | one character is removed exactly when it is an underscore |
| PyInt.ParseUnsigned | app/routes.py:29 | a digit string is accepted exactly when it is digits with single underscores between them |
| PyInt.ParseInt | app/routes.py:29 | `int(s)` succeeds exactly when the stripped text, less one optional sign, is well-formed digits; the magnitude is their value, and the sign is negative only after a '-' |
| PyInt.DecimalValue | app/routes.py:29 | the digits of a natural number denote that number |
| PyInt.ParseShow | app/routes.py:29 | `int(str(n)) == n` for every integer n |
| PyInt.ParseIntIgnoresPadding | app/routes.py:29 | whitespace around the text does not change what `int()` returns |
| PyInt.DecimalPointRejected | app/routes.py:29 | a number with a decimal point is a ValueError to `int()` |
| Sensor.Truthy | app/routes.py:27 | a body is falsy exactly when it is null, false, zero, or an empty string, list or object |
| Sensor.Occurrence | app/routes.py:27 | `key in text` holds only when the key occurs in the text at some position |
| Sensor.OccurrenceFound | app/routes.py:27 | an occurrence of the key at any position makes `key in text` hold |
| Sensor.In | app/routes.py:27 | `in` tests the keys of an object, the elements of a list and the substrings of a string, and raises TypeError for anything else |
| Sensor.Index | app/routes.py:29 | subscripting succeeds exactly for an object holding the key, raises KeyError for an object without it and TypeError for anything else |
| Sensor.Truncate | app/routes.py:29 | `int()` of a float truncates toward zero |
| Sensor.ToInt | app/routes.py:29 | `int()` raises ValueError exactly for a string that does not parse and TypeError exactly for null, a list or an object; booleans give 0 or 1, integers themselves, floats their truncation, strings their parse |
| Sensor.Receive | app/routes.py:22-45 | the reading is stored exactly for a JSON object whose "status" `int()` accepts, and then with that value; "Datos inválidos" exactly for a missing or falsy body or one in which `in` finds no "status"; "Formato de status inválido" exactly from a ValueError; a 500 exactly when `in`, the subscript or `int()` raises anything else |
| Sensor.NoRangeCheck | app/routes.py:29-30 | any integer status, 0/1 or not, is stored as sent |
| Sensor.TextStatusStored | app/routes.py:29-30 | a status sent as the decimal text of n is stored as n |
| Sensor.MissingStatusRejected | app/routes.py:27-45 | a non-empty object without "status", such as the sensor's own payload, is "Datos inválidos" |
| Sensor.NullStatusEscapes | app/routes.py:27-43 | a null status raises TypeError, which the handler does not catch |
| Sensor.ListBodyEscapes | app/routes.py:27-29 | a JSON list containing "status" passes the `in` test and fails to subscript |
| Registry.Create | app/routes.py:185-227 | without a session, login is required; a session user who does not exist is refused; missing fields are refused; a plate in use is refused; otherwise the vehicle is added with a new id, owned by the session user, and nothing else changes; each refusal changes nothing; validity is kept |
| Registry.Edit | app/routes.py:237-282 | the refusals come in order (no session, no such vehicle, not the owner, missing fields, plate held by another vehicle) and each holds exactly in its case and changes nothing; otherwise only that vehicle's four fields change; validity is kept |
| Registry.Delete | app/routes.py:288-311 | a delete succeeds exactly for the owner of an existing vehicle; the refusals (no session, no such vehicle, not the owner) hold exactly in their cases; only that row is removed; validity is kept |
| Registry.Register | app/routes.py:133-143 | a vehicle row with the next id, owned by the new user, is inserted when any field is filled; a plate already in the table makes the database refuse it and nothing changes; the users never change; validity is kept |
| Registry.FirstHolderDecidesConflict | app/routes.py:267-268 | with unique plates, whichever holder `first()` returns differs from the edited vehicle exactly when another vehicle holds the plate |
| Registry.FirstHolderWithoutUniqueness | app/routes.py:267-268 | without the UNIQUE constraint, `first()` may return the edited vehicle 1 itself, so no conflict is reported although vehicle 2 holds the same plate |
| Registry.CreateTwiceRejected | app/routes.py:210-213 | after a vehicle is created, another create with the same plate is refused, whoever submits it |
| Registry.EditKeepsOwnPlate | app/routes.py:266-270 | resubmitting a vehicle's own plate is not a conflict |
| Registry.DeleteFreesPlate | app/routes.py:307-308 | after a delete, the owner can create a vehicle with the freed plate |
| Registry.CreateThenDelete | app/routes.py:307-308 | deleting the vehicle just created restores the vehicle table |
| Registry.RegisterDuplicateRefused | app/routes.py:133-143 | `register` with a plate already present ends in an integrity error and changes nothing |
| Routes.App.constructor | app/routes.py:14 | the application starts with valid tables, no session, status "unknown" and the given upper lot |
| Routes.App.CreateVehicle | app/routes.py:185-227 | the handler's new tables and outcome are those of Registry.Create; the tables stay valid; session, sensor status and lot are unchanged |
| Routes.App.EditVehicle | app/routes.py:237-282 | whichever holder of the plate `first()` returns, the handler's new tables and outcome are those of Registry.Edit; the tables stay valid; session, sensor status and lot are unchanged |
| Routes.App.DeleteVehicle | app/routes.py:288-311 | the handler agrees with Registry.Delete; the tables stay valid |
| Routes.App.RegisterVehicle | app/routes.py:133-143 | the handler agrees with Registry.Register; the tables stay valid |
| Routes.App.ReceiveSensorData | app/routes.py:22-45 | the reply is Sensor.Receive of the body; a stored reading becomes `sensor_status` and spot 2's occupancy (if that row exists); otherwise nothing changes; the tables and the session never change |

## Left out

- The camera I/O is not modelled:
  - the HTTP capture loop, `imdecode` and `time.sleep`;
  - the drawing and windowing calls, apart from the display of the trimmed
    plate below.
  Those calls only do I/O or paint pixels.
- Detection.Detect: of the exceptions the handler at app/cam.py:144-145
  catches, only the one from showing an empty trimmed plate (app/cam.py:115)
  is modelled. A failed request, an undecodable image or a failing vision or
  OCR call also abandons a frame, and the model does not capture those.
- The foreign vision and OCR calls are inputs, not algorithms. These are
  `Canny`, `findContours`, `contourArea`, `arcLength`, `approxPolyDP`,
  `isContourConvex`, `boundingRect`, `getPerspectiveTransform`,
  `warpPerspective` and `pytesseract.image_to_string`. A contour is the
  descriptor of what they report.
- Pixel contents of the warped image are not modelled. `Crop.CropBorder`
  states the trim on any pixel grid, and the pipeline tracks only its shape.
- Coordinates are integers. The `float32` arrays of `ordenar_puntos` and of
  the destination matrix are not modelled; at plate sizes, the int-to-float32
  conversion is exact.
- `str.isalnum` is modelled on ASCII letters and digits. Non-ASCII letters
  and digits are left out because Dafny has no Unicode category table.
- PyInt.ParseInt models only ASCII digits and the ASCII whitespace `int()`
  strips. Unicode digits and spaces are left out, and so is the
  string-length limit of `int()` on very long inputs.
- JSON `NaN` and `Infinity` values are not modelled, and neither is Flask's
  415 answer to a request that is not JSON. `body` is None stands for an
  absent JSON body.
- The raw SQL of `/sensor` names the columns `ocupado` and `num_plaza`, which
  the `parking_superior` model (app/models.py:37-41) does not have. It is
  modelled as "set spot 2's occupancy if that row exists"; the
  column-mismatch error it would raise is left out.
- Registry.PlateInUse: plates are compared character for character. The
  database is MySQL (main.py:11), whose default collation compares the
  `matricula` column without regard to letter case, both in
  `filter_by(matricula=...)` and in its UNIQUE index. A form plate "abc123"
  against a stored "ABC123" is refused in the application and created in
  the model. The same collation also ignores trailing spaces (PAD SPACE)
  and, from MySQL 8.0, accents, so "ABC123 " and an accented variant of a
  stored plate are refused in the application as well.
- Registry.Create, Registry.Edit, Registry.Register: the four vehicle
  columns are `String(255)` (app/models.py:23-26), and the model places no
  bound on the form fields. Past 255 characters, MySQL in its default strict
  mode refuses the row at the commit (app/routes.py:224, 279 and 143) with
  a "Data too long" error that nothing catches: a 500, and nothing is
  stored. In non-strict mode, the value is stored cut to 255 characters,
  and later plate comparisons use the cut value. The model stores the full
  text and answers as for any other value.
- Not modelled:
  - the commented-out `/api/entrada`, `/api/actualizarplaza` and `/api/salida`
    endpoints: they are not live code;
  - `parkinf` and `parksup`: their behaviour depends on ORM class-attribute
    assignment;
  - `/sensor_status` (a read);
  - the GET branches: they change no table. The GET branch of
    `edit_vehicle` (app/routes.py:285) calls `vehicle.to_dict()`, which
    `Vehiculo` (app/models.py:18-26) does not define, so it fails with an
    AttributeError (a 500); that crash is not modelled either.
- Login, logout, profile and the user part of `register` are left out:
  - password hashing;
  - the unique constraints on users;
  - flash messages;
  - templates.
  The session is modelled only as the `user_id` it holds.
- Registry.Create: new ids come from a counter (`nextId`). The exact id the
  database assigns is not modelled, only that it is new.
- Nothing in the code is concurrent, and no concurrency is modelled.
