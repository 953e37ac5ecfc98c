/** Shows, cues, effects and timelines. F and D are the single- and double-precision
    number types: bit patterns in the file, exact reals during playback. */
module ShowTypes {
  import opened Bytes
  import opened IldaTypes

  datatype Effect<F> = Effect(kind: Byte, direction: Byte, rateHz: F, amount: F, axis: Byte,
                              r: Byte, g: Byte, b: Byte, enabled: bool, syncToTempo: bool)

  datatype Transform<F> = Transform(offsetX: F, offsetY: F, scale: F, rotationTurns: F, brightness: F)

  datatype Cue<F> = Cue(name: seq<Byte>, frames: IldaShow, framesPerSecond: F, loop: bool,
                        transform: Transform<F>, spinTurnsPerSec: F, effects: seq<Effect<F>>)

  datatype TimelineStep<D> = TimelineStep(timeSeconds: D, cueIndex: nat)

  datatype Timeline<D> = Timeline(name: seq<Byte>, steps: seq<TimelineStep<D>>, durationSeconds: D, loop: bool)

  datatype Show<F, D> = Show(name: seq<Byte>, cues: seq<Cue<F>>, timeline: Timeline<D>)
}
