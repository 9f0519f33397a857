# A model of the worms game and of its password hashing

The repository holds a turn-based artillery game: a server that simulates worms on a destructible map,
clients that show the same map, and a login that stores passwords as bcrypt hashes. This project models
the two parts whose code is furthest from what it means, and proves what each of them is for.

`dafny verify dfyconfig.toml` verifies everything.

## The game

The server's world is a map of cells, a vector of sprites (worms, missiles and health boxes), the list of
destroyed coordinates, and the flag that ends a turn. Time runs in ticks of 25 ms; positions are whole
cells, computed from exact real trajectories by rounding half away from zero.

- `Terrain` (map.cpp): explosions, the list they return, rising water; `GameMap` is the mutable map.
- `Physics` (physicsObject.cpp): trajectories. `Damage`: what explosions, falls and boxes do to a worm.
- `Arena`: one pass of `updateSprites` on values, as the code does it: worms heal and die while the pass is
  under way, erased sprites shift the others.
  `Settle` is the state `update` returns with, for states from which it does.
- `Settling`: the invariant of a pass, which lets worms be inside walls, and the measure that every pass with
  movement lowers unless a worm hangs. The parts of the measure are, in this order, the missiles left, the
  sprites left, and a sum over the sprites in which a thrown flight weighs more than every fall from rest
  that can follow it, a fall weighs by the rows below it, and ticks of flight weigh least.
- `Quiescence`: what holds when `update` returns, and what a whole update does to the terrain.
- `Trapped`: exactly when `update` returns, from any state with the invariant.
- `Shots`: exactly which shots and walks come to rest, from where a missile hits and what it uncovers.
- `Partie`: the sprites and `Partie` as objects that are updated in place, proved to compute the above.
- `Turns`: weapons and walking. `Spawn`: where sprites are placed.
- `Cyclic`, `Rotation`, `Scheduler`, `Search`, `Fairness`: choosing the next player and the next worm.
- `GameRun`: whole games as sequences of shots, walks and time-outs. `GameTurns`: whose turns they are made of.
  `CurrentWorm`: who acts. `Game`: `Joueur` and `Game` as objects.
- `Replica`: a client that damages its own copy of the map, undoes that, and applies the server's list.
- `Broadcast`: such a client throughout a whole game of `GameRun`.

Three promises a reader might expect do not hold for all inputs, and the project says exactly when they do:

- `update` does not return from every sprite vector. A living worm in a wall, with AIR just below it and
  above the kill row, is given a new fall at every tick and never leaves its cell. `moveCurrentLombric` can
  put a worm there, because it does not look at the map, and an explosion can open the cell below a worm
  that was held in a wall. `Trapped.UpdateReturnsIff` gives the exact condition without missiles,
  `Trapped.FlightReturnsIff` for any number of missiles, and `Shots.MissileReturnsIff`, `Shots.ShotReturnsIff`
  and `Shots.MoveReturnsIff` say which missiles, shots and walks these are, before they are simulated.
  `Shots.HangingWorldNeverReturns` and `Shots.StrandedWorldNeverReturns` are instances.
- `moveCurrentLombric` tests the same condition on the column twice, so it refuses every step to the left
  that the client makes: `Turns.StepMeaning`.
- The scheduling loop of `end_round` may never end even though two teams are alive. This needs players who
  look at fewer worms than there are slots, which happens when the number of worms per player was raised
  after they had joined (`change_nb_lomb` does not tell them). `spawn_lombric` then places worms with id 0 for
  their empty slots. As long as the sprite that is found for id 0 is one of these, alive, the empty slots count
  as living ones, and a vain try moves the player's current slot on to the next of them; once none of them is
  left, a gap between two living worms of a player can be too wide to be looked across, and if that is so for
  all players the loop goes on for ever.
  `Search.LoopEndsIff` gives the exact condition, with id 0 alive or not; `Search.RaisedTableGetsStuck` shows
  one table before and after its nameless worms have died; `GameRun.RoundReturnsIff` says when `end_round`
  returns; and `Scheduler.TeamIsReady` shows that the loop
  ends, while a team is alive, whenever every player joined with at least as many worms as there are slots.

A client that falls behind is covered by `Replica.MissedRoundsIff` and `Replica.EarlyRoundIff`.

## The password hash

bcrypt as in Provos and Mazieres, "A Future-Adaptable Password Scheme", USENIX 1999, sections 4 and 5,
around the Blowfish cipher. Words are 32-bit vectors and bytes 8-bit vectors. The initial P and S tables
are a parameter: every theorem holds for all tables. A C string is a sequence without NUL, and reading at
its length gives the NUL; reading further is a verification error.

- `Blowfish`: the published 16 rounds, the unrolled `BF_ENCRYPT`, the x86 form.
- `Eksblowfish`: the key schedule as a fold over 521 blocks, and the loops of crypt_blowfish.c and x86.S.
- `SetKey`: the cyclic key reader, the emulated sign extension bug and the safety flag.
- `BfCoder`: the base64 variant. Its two tables are given in closed form.
- `BfCrypt`: byte swapping, `BF_crypt`, generated settings, and the functions of bcrypt.c.

## Model

| member | source | states |
|---|---|---|
| Terrain.BlastMeaning | sharedFiles/src/map.cpp:49-66 | the list `explose` returns names exactly the cells of the crater, each of them once |
| Terrain.CraterMeaning | sharedFiles/src/map.cpp:52-60 | the crater holds every light wall within the radius, no other kind of cell, and beyond the disc at most the single cell just above its top in a column |
| Terrain.RowsMeaning | sharedFiles/src/map.cpp:54-57 | the rows from the truncated lower bound to the upper one are, inside the map, those of the disc and the one just above it |
| Terrain.FloodAfterLevel | sharedFiles/src/map.cpp:72-86 | setting the level and then clearing the row it names is one flood of the map |
| Terrain.GameMap.SetBloc | sharedFiles/src/map.cpp:45-47 | exactly the named cell changes, and none if it lies outside the map |
| Terrain.GameMap.Explose | sharedFiles/src/map.cpp:49-66 | the loops over columns and rows turn exactly the crater into AIR and return its list |
| Terrain.GameMap.SetWaterLevel | sharedFiles/src/map.cpp:72-79 | only the row at the new level becomes AIR; none at level 0 |
| Terrain.GameMap.IncreaseWaterLevel | sharedFiles/src/map.cpp:81-86 | the level rises by one and exactly its row becomes AIR |
| Physics.PositionIsNearest | sharedFiles/src/physicsObject.cpp:20-23 | row and column of a moving sprite are at most half a cell away from start + speed * time, with gravity/2 * time * time added to the row |
| Physics.NeverBack | sharedFiles/src/physicsObject.cpp:20-23 | no movement ever goes against the horizontal direction of its launch |
| Physics.SpeedMeaning | sharedFiles/src/physicsObject.cpp:27-30 | the speed a fall is judged by, computed from an elapsed time cut to whole seconds, is at most the exact one and less than one second of gravity below it; in the first second it is the launch speed |
| Physics.Lands | sharedFiles/src/physicsObject.cpp:20-23 | every flight under gravity, however fast, is at or below any given row from a computable tick on |
| Physics.FallsRowByRow | sharedFiles/src/physicsObject.cpp:20-23 | a fall from rest is seen on the row below its start before it is seen two or more rows below |
| Damage.FalloffIsRound | sharedFiles/src/lombric.cpp:89-92 | the integer damage of the model is the rounded quotient of the code, for damage of either sign |
| Damage.ExplosedMeaning | sharedFiles/src/lombric.cpp:86-101 | exactly the worms no farther away than the radius are hurt, by the rounded share that their real distance leaves, up to the maximum of life, and thrown away from the centre, in both directions, at most as fast as the distance in that direction allows |
| Damage.LandingMeaning | sharedFiles/src/lombric.cpp:53-72 | at the end of a movement a worm stays in its cell; at 14.14 or faster it loses its speed in life, what is left being cut toward zero, and otherwise nothing; with AIR below it starts to fall |
| Damage.FallCosts | sharedFiles/src/lombric.cpp:55-62 | a fall from rest costs 25 for each whole second it has lasted, which makes it harmless exactly if the cell it would enter is fewer than 13 rows below its start |
| Damage.BoxTurnMeaning | sharedFiles/src/healthBox.cpp:35-54 | a box goes to the first worm of the vector on its new cell, which gains its health up to the maximum, or stays; nothing else changes |
| Settling.WalledStep | sharedFiles/src/lombric.cpp:45-80 | a worm in a wall stays in its cell, loses life only at the end of a throw, and is left moving exactly if it hangs, in which case it hangs again at its next update |
| Settling.WormStep | sharedFiles/src/lombric.cpp:45-80 | a worm's update keeps the invariant, inside walls too, and lowers its part of the measure if the worm is left moving and did not hang |
| Settling.ThrownIsPinned | sharedFiles/src/lombric.cpp:96-99 | an explosion throws a worm so slowly that one tick later it is still in its cell, and does not hurt it there |
| Settling.BoxStep | sharedFiles/src/healthBox.cpp:11-33 | the same for a box, which never leaves through the bottom of the map |
| Settling.PassProgress | Server/src/partie_serv.cpp:56-94 | from any point of a pass with the invariant, the rest of the pass keeps it and never raises the measure; if no worm hangs, and none can be made to, that stays so, and movement lowers the measure |
| Settling.WholePass | Server/src/partie_serv.cpp:56-94 | a whole pass keeps the invariant for the next tick; if no worm hangs, and none can be made to, a pass that reports movement lowers the lexicographic measure |
| Settling.CalmSettles | Server/src/partie_serv.cpp:147-156 | so from such a state, with every sprite on AIR or without missiles and hanging worms, `update` returns |
| Quiescence.ReturnsAtRest | Server/src/partie_serv.cpp:147-156 | whenever the loop of `update` leaves, from any state with lives within their maximum and missiles in flight, wherever the sprites are and however they move: no projectile is left, nothing moves, every worm has life in 1..maximum, no AIR below it and is above the kill row, and no box shares a cell with a worm |
| Quiescence.DrownedMeaning | sharedFiles/src/lombric.cpp:76 | the unsigned comparison kills a worm above the map as well as in or just over the water |
| Quiescence.SettleEvolves | Server/src/partie_serv.cpp:78-87 | any update that returns only removes sprites, and the terrain it leaves is the old one with exactly the reported cells turned into AIR; without a missile the terrain stays |
| Trapped.HangsForever | sharedFiles/src/lombric.cpp:47-73 | with a worm hanging in a wall, and no missile, no pass is the last one |
| Trapped.UpdateReturnsIff | Server/src/partie_serv.cpp:147-156 | from a state without missiles, with worms anywhere and throws under way, `update` returns if and only if no worm hangs in a wall |
| Trapped.MissilesLand | sharedFiles/src/projectile.cpp:7-24 | from every state all missiles are gone after a number of passes that their launches and the height of the map bound |
| Trapped.FlightReturnsIff | Server/src/partie_serv.cpp:147-156 | from every state with the invariant, `update` returns if and only if no worm hangs when the last missile is gone |
| Shots.FlightEnds | sharedFiles/src/projectile.cpp:7-35 | a flight leads to the explosion in the cell computed from the map and the launch, among the same worms in walls that were there at the launch: update returns from the one exactly if from the other, in the same state |
| Shots.ImpactMeaning | sharedFiles/src/projectile.cpp:14-21 | that cell is the one of the last tick before the first at which the missile's cell is not AIR |
| Shots.ImpactIsAhead | sharedFiles/src/projectile.cpp:14-21 | a missile shot to the right never explodes left of its launch column, one shot to the left never right of it, and it explodes on AIR unless in the cell it starts in |
| Shots.MissileReturnsIff | Server/src/partie_serv.cpp:147-156 | from a state at rest, with worms anywhere, and one missile in flight, `update` returns if and only if the explosion in that cell leaves no living worm above the kill row in a cell that is not AIR with AIR just below |
| Shots.MissileDestroys | Server/src/partie_serv.cpp:21-36 | a missile that comes to rest has destroyed exactly the crater in its impact cell and reported its cells, each once |
| Shots.ShotReturnsIff | Server/src/partie_serv.cpp:29-34 | from every state between two acts, shots of the bat and passes return, and a missile does if and only if it strands no worm |
| Shots.MoveReturnsIff | Server/src/partie_serv.cpp:96-116 | a move of a living worm returns if and only if the new cell is AIR, or has no AIR below, or is one where the worm dies at once |
| Shots.HangingWorldNeverReturns | Server/src/partie_serv.cpp:96-116 | a step to the right that the server accepts and after which `update` never returns |
| Shots.StrandedWorldNeverReturns | Server/src/partie_serv.cpp:21-36 | a worm walks into a wall, comes to rest there, and shoots open the cell below it, after which `update` never returns |
| PartieServ.Sprite.SetMovement | sharedFiles/src/sprite.cpp:46-51 | an old movement is replaced by one that starts here and now |
| PartieServ.Sprite.GainLife | sharedFiles/src/lombric.cpp:108-111 | life is changed and capped at the maximum |
| PartieServ.Sprite.UpdateLombric | sharedFiles/src/lombric.cpp:45-80 | refines the update of a worm on values, with fall damage, the new fall, and death; alive means that life is left |
| PartieServ.Sprite.UpdateProjectile | sharedFiles/src/projectile.cpp:7-24 | dies where it would enter a cell that is not AIR, without taking the new position |
| PartieServ.Sprite.MoveBox | sharedFiles/src/healthBox.cpp:13-33 | refines the movement of a box on values |
| PartieServ.Sprite.Explode | sharedFiles/src/lombric.cpp:86-101 | a worm in reach loses its share of life and is thrown away from the centre; another one is untouched |
| PartieServ.Partie.HealFirst | sharedFiles/src/healthBox.cpp:41-52 | the first worm of the vector on the box's cell gains its life, and only that one |
| PartieServ.Partie.DeathMove | sharedFiles/src/projectile.cpp:27-35 | the crater is cleared and reported, and every worm is hit from the missile's last cell |
| PartieServ.Partie.UpdateWatched | Server/src/partie_serv.cpp:65-74 | the turn is over if the updated sprite is a worm whose life changed |
| PartieServ.Partie.UpdateOrErase | Server/src/partie_serv.cpp:64-91 | one iteration: update, and the last action and removal of a dead sprite |
| PartieServ.Partie.UpdateSprites | Server/src/partie_serv.cpp:56-94 | the loop over the vector that shrinks under it computes the pass on values and its movement flag |
| PartieServ.Partie.Update | Server/src/partie_serv.cpp:147-156 | from every state from which the loop returns: it leaves the settled state, quiescent if lives were within their maximum, and an animation time of 25 ms for each pass |
| PartieServ.Partie.MoveCurrentLombric | Server/src/partie_serv.cpp:96-116 | accepts exactly a step one column right on the same row or one up, into walls too, then settles; changes nothing otherwise |
| PartieServ.Partie.SetCurrentLomb | Server/src/partie_serv.cpp:131-134 | the turn is open again, and the current worm is the first sprite with that id if it is a worm, and none otherwise |
| PartieServ.Partie.AddHealthBox | Server/src/partie_serv.cpp:158-160 | the box is appended |
| PartieServ.Partie.ShootMissile | sharedFiles/src/arme.cpp:20-34 | a missile is added in the cell above the shooter |
| PartieServ.Partie.SwingBat | sharedFiles/src/arme.cpp:39-61 | exactly the other worms on the shooter's cell are thrown and hurt |
| PartieServ.Partie.FireWeapon | Server/src/partie_serv.cpp:21-36 | a shot that returns settles, and the coordinates sent name exactly the cells the terrain lost by it |
| Turns.ShotFits | sharedFiles/src/arme.cpp:20-64 | a shot of any weapon, at any speed and angle, from any state at rest satisfies the invariant of the update |
| Turns.MissileMeaning | sharedFiles/src/arme.cpp:20-34 | a missile of radius 4 and damage -25 starts in the cell above the shooter with the speed of the shot, behind all other sprites, which stay as they are |
| Turns.BatMeaning | sharedFiles/src/arme.cpp:39-61 | a sprite is changed exactly if it is a worm with an id, on the shooter's cell and not the shooter; then it loses 25 and starts there with the speed of the shot |
| Turns.WalkEndsTurnIff | Server/src/partie_serv.cpp:64-74 | without boxes on the map, a walk ends the turn if and only if the worms have less life afterwards |
| Turns.UseWeaponMeaning | Server/src/partie_serv.cpp:21-36 | after a shot that returns the next player can play: all at rest and no worm hanging; only a missile changes the terrain; no worm is new |
| Turns.MoveMeaning | Server/src/partie_serv.cpp:111-115 | after a move that returns, into a wall too, all is at rest, no worm hangs, and the terrain is unchanged |
| Turns.StepMeaning | sharedFiles/src/lombric.cpp:18-43 | a client's step leads to a free cell, and the server accepts it if and only if it goes right |
| Turns.StepMovesIff | sharedFiles/src/lombric.cpp:18-43 | a step moves a worm at rest, in the direction it faces, if and only if the cells it needs are AIR, to the next column and, for a jump, the row above; a step the other way turns it only |
| Spawn.SpawnPlace | sharedFiles/src/sprite.cpp:5-30 | the first draw, taken modulo width and height, that hits AIR over a column of AIR down to a cell with ground just below and above the kill row decides: a flying box is placed in the drawn cell, a worm on the first such cell below it; no place is found exactly if no draw is good |
| Spawn.PlayStaysDrained | sharedFiles/src/map.cpp:72-86 | no act of a game leaves a row under water that is not AIR |
| Spawn.GamesStayDrained | sharedFiles/src/map.cpp:72-86 | so places can be looked for at any time of any game |
| Spawn.PlacedWormFits | Server/src/game.cpp:379-393 | a worm so placed satisfies the invariant of the update |
| Cyclic.WrapIsModulo | Server/src/in_game_player.cpp:23 | the walk along a circle is the remainder |
| Rotation.NextIs | Server/src/game.cpp:288-294 | a search that tries the positions after the current one in turn finds the first eligible index in cyclic order |
| Rotation.Fair | Server/src/game.cpp:288-294 | in any run of such selections in which indices only become ineligible, between two consecutive uses of one index every index that stays eligible is used exactly once |
| Scheduler.GetNextMeaning | Server/src/in_game_player.cpp:20-30 | the next worm is the first living one in cyclic order among the nbr next slots, its id 0 or not; with at least as many worms as slots and 0 dead, 0 means that none lives |
| Scheduler.ReadyMeaning | Server/src/game.cpp:259-265 | a player is found exactly if it is no spectator and has a living worm |
| Scheduler.TeamIsReady | Server/src/game.cpp:281-294 | if every player looks at all slots in use and only their worms live, the scheduling loop finds a player exactly while a team is alive |
| Search.TriedIs | Server/src/game.cpp:288-294 | after n iterations each player is where the tries that fell on it have led it, found or not |
| Search.LoopEndsIff | Server/src/game.cpp:288-294 | the loop ends, and then within as many rounds of the players as there are slots, if and only if some player who is no spectator has a living worm with an id at most one round ahead, with fewer dead slots in a row on the way than it looks at |
| Search.PlainLoop | Server/src/game.cpp:288-294 | while no worm with id 0 lives it ends if and only if some player is ready, within one round, with the first such player in cyclic order and that player's next worm |
| Search.RaisedTableGetsStuck | Server/src/game.cpp:288-294 | two teams alive: with nameless worms alive the loop ends at its fifth iteration, without them never |
| Fairness.PlayersTakeTurns | Server/src/game.cpp:287-296 | between two consecutive turns of a player, every other player in the running who keeps a living worm plays exactly once |
| Fairness.WormsTakeTurns | Server/src/in_game_player.cpp:20-30 | between two consecutive uses of a player's worm, every other worm of that player that stays alive is used exactly once |
| GameRun.RiseFits | Server/src/game.cpp:276-279 | rising water makes no worm in a wall hang, so `end_round` always gets past its update |
| GameRun.CanActIff | Server/src/game.cpp:533-592 | the acts of a game are all shots that strand no worm, all accepted walks, into walls too, to cells that can hold a worm, and all time-outs |
| GameRun.RoundReturnsIff | Server/src/game.cpp:267-294 | the end of a round returns if and only if at most one team is left or some player can reach a living worm with an id |
| GameRun.EndRoundMeaning | Server/src/game.cpp:267-306 | the end of a round keeps the game's invariant, floods one more row exactly if the time is up, ends the game exactly if at most one team is left, and otherwise opens the turn of a living worm of the new current player, with the new box, if there is one, behind the sprites that are left |
| GameRun.PlayMeaning | Server/src/game.cpp:533-592 | every act of a game keeps the invariant; only a late round raises the water, and only the end of a round ends the game |
| GameRun.ActedMeaning | Server/src/game.cpp:535-587 | shots and walks only destroy terrain and worms and bring none back |
| GameRun.WaterCountsLateRounds | Server/src/game.cpp:276-279 | in every reachable state the water level is the number of rounds that ended late |
| GameRun.WaterForcesEnd | Server/src/game.cpp:276-285 | every game is over after at most height - 1 late rounds, and each rise clears a row inside the map |
| GameRun.EndsWithLastTeam | Server/src/game.cpp:281-285 | a game ends at the first round end with at most one team alive, and only there |
| GameTurns.OrderlyRound | Server/src/game.cpp:267-296 | if players look at all slots and no worm has the id 0, every end of a round returns and takes the next turn of the schedule, or ends the game |
| GameTurns.GameIsSchedule | Server/src/game.cpp:287-296 | the turns of every such game form a schedule: table number r is the game's at all times of turn r, with the worms alive at its beginning |
| GameTurns.GamePlayersTakeTurns | Server/src/game.cpp:287-296 | in such a game, between two consecutive turns of a player, every other player who keeps a living worm has exactly one turn |
| GameTurns.GameWormsTakeTurns | Server/src/in_game_player.cpp:20-30 | in such a game, between two consecutive uses of a worm, every other worm of its player that stays alive is used exactly once, as the game's current worm |
| CurrentWorm.OpenSettle | Server/src/partie_serv.cpp:65-74 | an update without missiles that leaves the turn open leaves every worm with an id |
| CurrentWorm.CurrentLives | Server/src/game.cpp:533-592 | in a game that starts with a living current worm, and whose boxes take no life away, the current worm lives whenever it can act |
| GameServ.IsLombAlive | Server/src/partie_serv.cpp:124-128 | true exactly if the first sprite with that id is a worm with life |
| GameServ.Joueur.GetNextLombricId | Server/src/in_game_player.cpp:20-30 | the search with early return computes the next worm on values and remembers its slot |
| GameServ.Joueur.IsStillAlive | Server/src/in_game_player.cpp:93-100 | true exactly if one of the player's worms lives |
| GameServ.Game.NbAliveTeams | Server/src/game.cpp:245-256 | counts the distinct teams other than 0 that own a living worm, each once however many of its players live |
| GameServ.Game.GetNextLombricId | Server/src/game.cpp:259-265 | 0 for a spectator; only the current player's worm changes |
| GameServ.Game.ChooseNext | Server/src/game.cpp:288-294 | from every table on which it ends, worms with id 0 alive or not, the do..while loop leaves the table and the id of its first successful iteration |
| GameServ.Game.RiseWater | Server/src/game.cpp:276-279 | when the time is up the water rises and the world settles |
| GameServ.Game.EndRound | Server/src/game.cpp:267-312 | whenever the end of a round returns, the objects end it as the game on values does, whose theorems therefore hold of them |
| Replica.StepKeepsInStep | Server/src/game.cpp:573-588 | at every step the server's map is the client's map with its own damage undone and the outstanding list applied |
| Replica.LocalBlastUndone | Client/src/partie.cpp:480-486 | whatever the client's own explosions destroyed is exactly what it restores |
| Replica.Agreement | Client/src/partie.cpp:86-116 | after every NEXT_ROUND step of every run that keeps pace, the client's terrain and water are the server's |
| Replica.MissedRoundsIff | Client/src/partie.cpp:101-103 | a client that misses any number of rounds and processes the last one agrees afterwards if and only if the rows of the missed rises were already free |
| Replica.EarlyRoundIff | Client/src/partie.cpp:101-103 | a client that takes NEXT_ROUND before the shot's list agrees if and only if every listed cell was free already or lies in the flooded row |
| Replica.ClientPartie.AddDeletedBlock | Client/src/partie.cpp:474-478 | the coordinates are appended in order |
| Replica.ClientPartie.Explosion | sharedFiles/src/projectile.cpp:27-28 | an explosion of the client's own simulation damages its map and remembers exactly the destroyed cells |
| Replica.ClientPartie.SetAll | Client/src/partie.cpp:480-494 | each of the two loops sets exactly the listed cells, whatever order and repetitions the list has |
| Replica.ClientPartie.NextRoundStep | Client/src/partie.cpp:101-103 | undo, apply, forget, and flood refine the next-round step on values |
| Broadcast.ActAgrees | Server/src/game.cpp:565-588 | one act of a game and a client's reaction to its messages keep the two maps equal |
| Broadcast.ClientSeesTheGame | Client/src/partie.cpp:86-116 | throughout every game the terrain and water of a client are those of the game after every act, whatever its own simulations destroyed |
| BfCoder.DecodeFailsIff | Server/lib/crypt_blowfish/crypt_blowfish.c:376-407 | decoding fails exactly if one of the characters it is to read is missing or outside the alphabet |
| BfCoder.ItoaIsAlphabet | Server/lib/crypt_blowfish/crypt_blowfish.c:364-365 | the closed form of the table is the published alphabet of 64 characters |
| BfCoder.GroupsAreSextets | Server/lib/crypt_blowfish/crypt_blowfish.c:409-439 | the four characters of three bytes are their 24 bits in groups of six, from the most significant on |
| BfCoder.DecodeEncode | Server/lib/crypt_blowfish/crypt_blowfish.c:385-439 | decoding undoes encoding for every number of bytes, whatever text follows |
| BfCoder.EncodeDecode | Server/lib/crypt_blowfish/crypt_blowfish.c:385-439 | encoding what was decoded gives the text back, with the unused bits of its last character cleared |
| BfCoder.BfEncode | Server/lib/crypt_blowfish/crypt_blowfish.c:409-439 | the loop with its two exits writes the encoding of the bytes |
| BfCoder.BfDecode | Server/lib/crypt_blowfish/crypt_blowfish.c:385-407 | the loop decodes or fails as specified and reads nothing beyond the NUL |
| Blowfish.FUndone | Server/lib/crypt_blowfish/crypt_blowfish.c:467-471 | the four table words of the round function are added, combined and added in this order: taking them off in reverse order leaves the word of the first S-box |
| Blowfish.RoundVariantsAgree | Server/lib/crypt_blowfish/crypt_blowfish.c:455-493 | the round with indices, the one with byte offsets, and the one of x86.S, each mixing the words in its own order, compute the published function |
| Blowfish.BfEncryptIsEncrypt | Server/lib/crypt_blowfish/crypt_blowfish.c:498-518 | the unrolled form without swaps, with subkeys folded in one round early, is one Blowfish encryption |
| Blowfish.DecryptEncrypt | Server/lib/crypt_blowfish/crypt_blowfish.c:498-518 | encryption with the subkeys reversed undoes encryption |
| Blowfish.EncryptIsBijection | Server/lib/crypt_blowfish/crypt_blowfish.c:498-518 | for all tables encryption is injective and onto |
| Blowfish.X86EncryptAgrees | Server/lib/crypt_blowfish/x86.S:83-126 | the x86 form, which applies subkeys at use, computes the same |
| Eksblowfish.WrittenOnce | Server/lib/crypt_blowfish/crypt_blowfish.c:701-724 | a pass writes each of the 521 blocks of the tables once, with the output of its own step |
| Eksblowfish.XorKeyMeaning | Server/lib/crypt_blowfish/crypt_blowfish.c:613 | combining the subkeys with a key twice changes nothing |
| Eksblowfish.CyclesFromFront | Server/lib/crypt_blowfish/crypt_blowfish.c:726-753 | the first of the cycles uses the key first and then the salt |
| Eksblowfish.Ctx.BfEncrypt | Server/lib/crypt_blowfish/crypt_blowfish.c:498-518 | encrypts the two halves with the tables as they are |
| Eksblowfish.Ctx.FillSalted | Server/lib/crypt_blowfish/crypt_blowfish.c:701-724 | the two loops, the second of two blocks at a time, are one salted pass that takes the salt halves in turn |
| Eksblowfish.Ctx.Body | Server/lib/crypt_blowfish/crypt_blowfish.c:524-540 | the pointer-stepped loops are one pass without salt |
| Eksblowfish.Ctx.X86Body | Server/lib/crypt_blowfish/x86.S:128-192 | so are the x86 loops, the second of four blocks at a time |
| Eksblowfish.Ctx.XorExpanded | Server/lib/crypt_blowfish/crypt_blowfish.c:729-732 | combines all 18 subkeys with the key |
| Eksblowfish.Ctx.XorSalt | Server/lib/crypt_blowfish/crypt_blowfish.c:741-751 | combines all 18 subkeys with the repeated salt |
| Eksblowfish.Ctx.Schedule | Server/lib/crypt_blowfish/crypt_blowfish.c:701-753 | the loops with the flag done leave the tables of one salted ExpandKey followed by count times ExpandKey with the key and with the salt, in this order |
| Eksblowfish.Ctx.Encrypt64 | Server/lib/crypt_blowfish/crypt_blowfish.c:755-766 | 64 encryptions of a block |
| SetKey.ReadWord | Server/lib/crypt_blowfish/crypt_blowfish.c:590-611 | the wrapping pointer reads byte k modulo length + 1 of key and NUL at step k; sign collects the top bits of bytes 1 to 3 |
| SetKey.BfSetKey | Server/lib/crypt_blowfish/crypt_blowfish.c:543-643 | leaves the expanded key of the requested reading, and the initial subkeys combined with it and with the safety flag |
| SetKey.DecideMeaning | Server/lib/crypt_blowfish/crypt_blowfish.c:629-633 | the branch-free lines give 0x10000 exactly if the measure is requested, the readings agree and a sign was extended |
| SetKey.ReadingsAgreeIff | Server/lib/crypt_blowfish/crypt_blowfish.c:594-611 | the two readings of a word agree exactly if each byte with its top bit set, after the first, comes only after 0xff in its word |
| SetKey.FiresMeaning | Server/lib/crypt_blowfish/crypt_blowfish.c:616-633 | the measure is called for exactly if such a byte exists and all 18 words are of that form |
| SetKey.FiredStateIsUnique | Server/lib/crypt_blowfish/crypt_blowfish.c:635-642 | the pair of key and initial subkeys where it fires is produced by no key under the prefixes $2b$, $2x$ and $2y$ |
| SetKey.ExpandedEqualIff | Server/lib/crypt_blowfish/crypt_blowfish.c:590-614 | expanded keys are equal exactly if the first 72 bytes read are |
| SetKey.SameKeyIff | Server/lib/crypt_blowfish/crypt_blowfish.c:590-614 | two keys expand to the same key if and only if they agree on the first 72 bytes of key and NUL |
| BfCrypt.SwapReadsBigEndian | Server/lib/crypt_blowfish/crypt_blowfish.c:441-453 | on either byte order a swapped load is the big-endian word |
| BfCrypt.SwapWritesBigEndian | Server/lib/crypt_blowfish/crypt_blowfish.c:441-453 | on either byte order swapped words lie in memory as big-endian bytes |
| BfCrypt.WordsOfMemory | Server/lib/crypt_blowfish/crypt_blowfish.c:441-453 | storing words and loading them gives them back, on either byte order |
| BfCrypt.MemoryOfWords | Server/lib/crypt_blowfish/crypt_blowfish.c:441-453 | loading bytes and storing them gives them back, on either byte order |
| BfCrypt.KeyWordIsBigEndian | Server/lib/crypt_blowfish/crypt_blowfish.c:594-606 | the words of the expanded key are the big-endian words of the bytes read |
| BfCrypt.BfSwap | Server/lib/crypt_blowfish/crypt_blowfish.c:441-453 | swaps every word of the array in place, or none |
| BfCrypt.TestPrefixIff | Server/lib/crypt_blowfish/crypt_blowfish.c:674-685 | the chain of comparisons, which never reads beyond the NUL, accepts exactly the prefixes of a known variant and a cost up to 31 |
| BfCrypt.ShiftedIsPower | Server/lib/crypt_blowfish/crypt_blowfish.c:688 | for every cost a setting can have the 32-bit shift is the power of two |
| BfCrypt.MagicIsText | Server/lib/crypt_blowfish/crypt_blowfish.c:82-88 | the six words are the characters of OrpheanBeholderScryDoubt, big-endian |
| BfCrypt.RawIsEncryptedText | Server/lib/crypt_blowfish/crypt_blowfish.c:755-766 | decrypting the 24 bytes 64 times gives this text back |
| BfCrypt.InitialIsCombined | Server/lib/crypt_blowfish/crypt_blowfish.c:613-642 | the initial subkeys are combined with the key, and where the safety measure fires bit 16 of the first is changed and nothing else |
| BfCrypt.ScheduledIsSetup | Server/lib/crypt_blowfish/crypt_blowfish.c:693-753 | where it does not fire, the final tables are those of the published EksBlowfishSetup with 1 << cost cycles |
| BfCrypt.PrefixesAgreeIff | Server/lib/crypt_blowfish/crypt_blowfish.c:580-586 | under $2a$ and $2b$ the same subkeys result if and only if the measure is not called for, and $2y$ is $2b$ |
| BfCrypt.HashBytes | Server/lib/crypt_blowfish/crypt_blowfish.c:693-774 | key schedule and final encryptions give the specified 23 bytes, the same on either byte order |
| BfCrypt.BfCrypt | Server/lib/crypt_blowfish/crypt_blowfish.c:649-779 | the result, with its two errors, is a function of key, setting and tables, independent of the byte order; its 29 first characters are the re-encoded salt |
| BfCrypt.OutputShape | Server/lib/crypt_blowfish/crypt_blowfish.c:768-778 | every output has 60 characters, none of them NUL, and the prefix of its setting |
| BfCrypt.SelfVerification | Server/lib/crypt_blowfish/crypt_blowfish.c:649-779 | a hash fed back as its own setting reproduces itself |
| BfCrypt.OutputIs | Server/lib/crypt_blowfish/crypt_blowfish.c:649-779 | another key reproduces a hash if and only if it has the same 23 bytes under its salt |
| BfCrypt.SameSignificantSameHash | Server/lib/crypt_blowfish/crypt_blowfish.c:590-642 | keys that agree on their first 72 bytes are interchangeable under every setting, the safety measure included |
| BfCrypt.GensaltBlowfish | Server/lib/crypt_blowfish/crypt_blowfish.c:881-907 | which arguments are refused and with which error, and the setting made from the others |
| BfCrypt.GeneratedSettingIsRead | Server/lib/crypt_blowfish/crypt_blowfish.c:674-693 | `BF_crypt` takes a generated setting apart into the cost and the 16 bytes it was made of |
| BfCrypt.GeneratedSettingWorks | Server/lib/crypt_blowfish/crypt_blowfish.c:881-907 | every generated setting is accepted, and the output starts with it |
| BfCrypt.TimingSafeStrcmp | Server/lib/bcrypt.c:71-95 | 0 exactly on equal strings |
| BfCrypt.BcryptGensalt | Server/lib/bcrypt.c:97-122 | succeeds on any 16 bytes; a factor outside 4..31 stands for 12 |
| BfCrypt.BcryptHashpw | Server/lib/bcrypt.c:124-129 | the hash with room for 64 characters and at least 16 rounds |
| BfCrypt.BcryptCheckpw | Server/lib/bcrypt.c:131-141 | -1 exactly if the hash is no setting, 0 exactly if the password reproduces it |
| BfCrypt.CheckAcceptsItsHash | Server/lib/bcrypt.c:124-141 | a password is accepted against its own hash for every generated salt, and another one if and only if it has the same 23 bytes |

## Left out

- Sockets, message formats, the database, threads, file reading, the text and Qt interfaces, replay files.
- Randomness: the draws of the spawning constructor are a list, and whether a health box appears is part of an act of a game. That the loop over an endless supply of draws ends is not claimed.
- Floating point: trajectories are exact reals and launch speeds arbitrary reals, so the trigonometry of `calculDirVect` and rounding errors of doubles are not modelled. Square roots are replaced by exact comparisons.
- Widths of the game's integers: positions and lives are unbounded, except where a comparison or a cast to unsigned decides what happens (the kill row, cells left of or above the map).
- MRU movements, which no code creates, and sprites with a blast radius of 0 or less.
- PartieServ.Partie.Update: what happens in a run that does not return; its precondition is that the loop returns, and `Trapped.FlightReturnsIff` says when it does. The same holds for `FireWeapon` (`Shots.ShotReturnsIff`).
- PartieServ.Partie.MoveCurrentLombric: likewise what happens after an accepted move from which `update` never returns; `Shots.MoveReturnsIff` says which moves these are.
- Of a round whose scheduling loop never ends nothing is said but when that is: `GameRun.RoundReturnsIff`. The rotation of players and worms is claimed for games in which every player looks at all slots (`GameTurns.Orderly`); elsewhere `Search.TriedIs` and `Search.LoopEndsIff` say what the loop does.
- Shots by a dead current worm, to which the code keeps a dangling pointer; `CurrentWorm.CurrentLives` shows that there are none unless a health box takes life away.
- Spawn.SpawnPlace: the constructor's retry loops are bounded by the list of draws.
- Agreement of worms between client and server: dead worms are erased on the server and never reported. Only terrain and water are claimed to agree.
- Replica.Agreement: messages are steps that arrive in order; the client processes a round before the next one starts. What happens otherwise is stated by Replica.MissedRoundsIff for missed rounds and by Replica.EarlyRoundIff for one round.
- Players who quit, rooms, match-making, and who is credited with a win (`end_game`).
- The self-test of `_crypt_blowfish_rn` and the string it writes on failure: the self-test is taken to succeed.
- The digits of the initial tables, and any claim of cryptographic strength.
- BfCrypt.BfCrypt: output buffers are returned as sequences.
- BfCrypt.BcryptGensalt: the 16 bytes read from the random device are a parameter, and its errors for failed reads are left out.
- The other hash types of `crypt_gensalt.c` and `wrapper.c`.
